/**
 * `PasswordStore`: the vault's in-memory list of credential entries.
 *
 * Entries are kept in insertion order in `entries`.  Every successful add,
 * update or delete writes the whole list back to the entries file; the file
 * is modelled by the ghost field `persisted` (`None` while the file is
 * missing or not valid JSON) and the number of write-backs by `writes`.  The
 * cipher is the session's, fixed at construction.  Ids and timestamps, which
 * the source draws from `uuid4` and the clock, are supplied by the caller.
 */
module Store {
  import opened Wrappers
  import opened Encryption
  import opened Strings

  /** One credential record; `password` holds the ciphertext. */
  datatype Entry = Entry(
    id: string,
    title: string,
    username: string,
    password: string,
    website: string,
    category: string,
    notes: string,
    createdAt: string,
    modifiedAt: string)

  /** The keyword arguments of `update_entry`: `None` leaves a field alone. */
  datatype Changes = Changes(
    title: Option<string>,
    username: Option<string>,
    password: Option<string>,
    website: Option<string>,
    category: Option<string>,
    notes: Option<string>)

  const NoChanges := Changes(None, None, None, None, None, None)

  // ---------------------------------------------------------------------
  // Specification functions
  // ---------------------------------------------------------------------

  /**
   * `_load_entries`: the file's records, or no entries when it is missing or
   * not valid JSON (the two errors it catches).
   */
  function Loaded(file: Option<seq<Entry>>): seq<Entry> {
    file.GetOr([])
  }

  /**
   * The password a copy shows.  The source keeps the ciphertext unless
   * decryption yields a truthy value: `None` and the empty string both fail.
   */
  function Shown(c: Cipher, stored: string): (r: string)
    ensures r == stored || (c.decrypt(stored) == Some(r) && r != "")
    ensures c.decrypt(stored).Some? && c.decrypt(stored).value != "" ==> r == c.decrypt(stored).value
    ensures c.decrypt(stored).None? || c.decrypt(stored) == Some("") ==> r == stored
  {
    match c.decrypt(stored)
    case Some(p) => if p != "" then p else stored
    case None => stored
  }

  /** A copy of `e` with its password decrypted where that succeeds. */
  function Revealed(c: Cipher, e: Entry): (r: Entry)
    ensures r.(password := e.password) == e
  {
    e.(password := Shown(c, e.password))
  }

  predicate HasId(es: seq<Entry>, id: string) {
    exists i :: 0 <= i < |es| && es[i].id == id
  }

  /** `i` is the position of the first entry with this id. */
  predicate IsFirstMatch(es: seq<Entry>, id: string, i: int) {
    0 <= i < |es| && es[i].id == id && forall j :: 0 <= j < i ==> es[j].id != id
  }

  predicate UniqueIds(es: seq<Entry>) {
    forall i, j :: 0 <= i < j < |es| ==> es[i].id != es[j].id
  }

  /** Where a front-to-back scan for `id` stops. */
  function FirstIndex(es: seq<Entry>, id: string): (r: Option<nat>)
    ensures r.None? <==> !HasId(es, id)
    ensures r.Some? ==> IsFirstMatch(es, id, r.value)
  {
    if es == [] then None
    else if es[0].id == id then Some(0)
    else
      match FirstIndex(es[1..], id)
      case None => None
      case Some(k) =>
        assert es[k + 1] == es[1..][k];
        Some(k + 1)
  }

  /** The answer of `get_entry`. */
  function Lookup(c: Cipher, es: seq<Entry>, id: string): (r: Option<Entry>)
    ensures r.None? <==> !HasId(es, id)
    ensures r.Some? ==> exists i :: IsFirstMatch(es, id, i) && r.value == Revealed(c, es[i])
  {
    match FirstIndex(es, id)
    case None => None
    case Some(i) => Some(Revealed(c, es[i]))
  }

  /** The record `update_entry` leaves at the matched position. */
  function Patched(c: Cipher, e: Entry, ch: Changes, now: string): (r: Entry)
    ensures r.id == e.id && r.createdAt == e.createdAt && r.modifiedAt == now
    ensures ch == NoChanges ==> r == e.(modifiedAt := now)
  {
    e.(title := ch.title.GetOr(e.title),
       username := ch.username.GetOr(e.username),
       password := if ch.password.Some? then c.encrypt(ch.password.value) else e.password,
       website := ch.website.GetOr(e.website),
       category := ch.category.GetOr(e.category),
       notes := ch.notes.GetOr(e.notes),
       modifiedAt := now)
  }

  /** The list after `update_entry`: only the first match is patched. */
  function Updated(c: Cipher, es: seq<Entry>, id: string, ch: Changes, now: string): (r: seq<Entry>)
    ensures |r| == |es|
    ensures !HasId(es, id) ==> r == es
  {
    match FirstIndex(es, id)
    case None => es
    case Some(i) => es[i := Patched(c, es[i], ch, now)]
  }

  /** The list after `delete_entry`: only the first match is removed. */
  function Deleted(es: seq<Entry>, id: string): (r: seq<Entry>)
    ensures HasId(es, id) ==> |r| == |es| - 1
    ensures !HasId(es, id) ==> r == es
  {
    match FirstIndex(es, id)
    case None => es
    case Some(i) => es[..i] + es[i + 1..]
  }

  /** The answer of `get_all_entries`. */
  function ListAll(c: Cipher, es: seq<Entry>, decrypt: bool): (r: seq<Entry>)
    ensures |r| == |es|
    ensures forall i :: 0 <= i < |es| ==> r[i].id == es[i].id
  {
    seq(|es|, i requires 0 <= i < |es| => if decrypt then Revealed(c, es[i]) else es[i])
  }

  /** The category test of `search_entries`: applied only when the list is non-empty. */
  predicate CategoryAdmits(categories: seq<string>, e: Entry) {
    |categories| == 0 || e.category in categories
  }

  /** The text test of `search_entries`, for an already lower-cased query. */
  predicate TextMatches(q: string, e: Entry) {
    Contains(Lower(e.title), q) || Contains(Lower(e.username), q)
    || Contains(Lower(e.website), q) || Contains(Lower(e.notes), q)
  }

  predicate Selected(query: string, categories: seq<string>, e: Entry) {
    CategoryAdmits(categories, e) && TextMatches(Lower(query), e)
  }

  /** The answer of `search_entries`: the selected entries, in list order. */
  function SearchResults(es: seq<Entry>, query: string, categories: seq<string>): (r: seq<Entry>)
    ensures |r| <= |es|
    decreases |es|
  {
    if es == [] then []
    else
      var last := es[|es| - 1];
      SearchResults(es[..|es| - 1], query, categories) + if Selected(query, categories, last) then [last] else []
  }

  /** The distinct non-empty categories of the list. */
  function CategorySet(es: seq<Entry>): (r: set<string>)
    ensures "" !in r
  {
    set i | 0 <= i < |es| && es[i].category != "" :: es[i].category
  }

  // ---------------------------------------------------------------------
  // Properties of the specification functions
  // ---------------------------------------------------------------------

  /** Two lists with the same ids, position by position, have the same first match. */
  lemma {:induction false} FirstIndexSameIds(a: seq<Entry>, b: seq<Entry>, id: string)
    requires |a| == |b| && forall k :: 0 <= k < |a| ==> a[k].id == b[k].id
    ensures FirstIndex(a, id) == FirstIndex(b, id)
    decreases |a|
  {
    if a != [] && a[0].id != id {
      FirstIndexSameIds(a[1..], b[1..], id);
    }
  }

  /** The first match is unique: any position that is a first match is the one `FirstIndex` finds. */
  lemma FirstMatchIsFirstIndex(es: seq<Entry>, id: string, i: int)
    requires IsFirstMatch(es, id, i)
    ensures FirstIndex(es, id) == Some(i)
  {
    assert HasId(es, id);
  }

  /**
   * The listing keeps length, order and every field but the password; without
   * decryption it is the list itself; with it, a password is replaced exactly
   * when it decrypts to a non-empty plaintext.
   */
  lemma ListAllShape(c: Cipher, es: seq<Entry>, decrypt: bool)
    ensures |ListAll(c, es, decrypt)| == |es|
    ensures forall i :: 0 <= i < |es| ==> ListAll(c, es, decrypt)[i].(password := es[i].password) == es[i]
    ensures !decrypt ==> ListAll(c, es, decrypt) == es
    ensures forall i :: 0 <= i < |es| && c.decrypt(es[i].password).None? ==> ListAll(c, es, decrypt)[i].password == es[i].password
    ensures decrypt ==> forall i :: 0 <= i < |es| && c.decrypt(es[i].password).Some? && c.decrypt(es[i].password).value != "" ==>
      ListAll(c, es, decrypt)[i].password == c.decrypt(es[i].password).value
  {
  }

  /** A new entry under a fresh id is found by `get_entry`, with its password decrypted. */
  lemma AddThenGet(c: Cipher, es: seq<Entry>, id: string, title: string, username: string, password: string,
                   website: string, category: string, notes: string, createdAt: string, modifiedAt: string)
    requires RoundTrips(c)
    requires !HasId(es, id)
    requires password != ""
    ensures Lookup(c, es + [Entry(id, title, username, c.encrypt(password), website, category, notes, createdAt, modifiedAt)], id)
            == Some(Entry(id, title, username, password, website, category, notes, createdAt, modifiedAt))
  {
    var added := es + [Entry(id, title, username, c.encrypt(password), website, category, notes, createdAt, modifiedAt)];
    FirstMatchIsFirstIndex(added, id, |es|);
    assert c.decrypt(c.encrypt(password)) == Some(password);
  }

  /**
   * An empty password decrypts to the empty string, which is falsy, so
   * `get_entry` hands back the ciphertext in its place.
   */
  lemma AddEmptyPasswordShowsCiphertext(c: Cipher, es: seq<Entry>, id: string, title: string, username: string,
                                        website: string, category: string, notes: string, createdAt: string, modifiedAt: string)
    requires RoundTrips(c)
    requires !HasId(es, id)
    ensures Lookup(c, es + [Entry(id, title, username, c.encrypt(""), website, category, notes, createdAt, modifiedAt)], id)
            == Some(Entry(id, title, username, c.encrypt(""), website, category, notes, createdAt, modifiedAt))
  {
    var added := es + [Entry(id, title, username, c.encrypt(""), website, category, notes, createdAt, modifiedAt)];
    FirstMatchIsFirstIndex(added, id, |es|);
    assert c.decrypt(c.encrypt("")) == Some("");
  }

  /** `update_entry` touches only the first match and never its id or creation time. */
  lemma UpdatedShape(c: Cipher, es: seq<Entry>, id: string, ch: Changes, now: string)
    ensures |Updated(c, es, id, ch, now)| == |es|
    ensures forall k :: 0 <= k < |es| ==>
      Updated(c, es, id, ch, now)[k].id == es[k].id && Updated(c, es, id, ch, now)[k].createdAt == es[k].createdAt
    ensures forall k :: 0 <= k < |es| && !IsFirstMatch(es, id, k) ==> Updated(c, es, id, ch, now)[k] == es[k]
    ensures UniqueIds(es) ==> UniqueIds(Updated(c, es, id, ch, now))
  {
    match FirstIndex(es, id)
    case None =>
    case Some(i) =>
      forall k | 0 <= k < |es| && !IsFirstMatch(es, id, k)
        ensures Updated(c, es, id, ch, now)[k] == es[k]
      {
        assert k != i;
      }
  }

  /** Each supplied field is replaced (the password by its encryption), each `None` keeps its value, and the time is refreshed. */
  lemma UpdatedFields(c: Cipher, es: seq<Entry>, id: string, ch: Changes, now: string)
    requires HasId(es, id)
    ensures var i := FirstIndex(es, id).value;
      var e, e' := es[i], Updated(c, es, id, ch, now)[i];
      && e'.title == (if ch.title.Some? then ch.title.value else e.title)
      && e'.username == (if ch.username.Some? then ch.username.value else e.username)
      && e'.password == (if ch.password.Some? then c.encrypt(ch.password.value) else e.password)
      && e'.website == (if ch.website.Some? then ch.website.value else e.website)
      && e'.category == (if ch.category.Some? then ch.category.value else e.category)
      && e'.notes == (if ch.notes.Some? then ch.notes.value else e.notes)
      && e'.modifiedAt == now
      && e'.id == e.id && e'.createdAt == e.createdAt
  {
  }

  /** Setting only the title changes the title and the modification time of the first match, and nothing else. */
  lemma UpdateTitleOnly(c: Cipher, es: seq<Entry>, id: string, title: string, now: string)
    requires HasId(es, id)
    ensures var i := FirstIndex(es, id).value;
      Updated(c, es, id, NoChanges.(title := Some(title)), now) == es[i := es[i].(title := title, modifiedAt := now)]
  {
  }

  /** After a password change, `get_entry` shows the new plaintext. */
  lemma UpdatePasswordThenGet(c: Cipher, es: seq<Entry>, id: string, ch: Changes, now: string)
    requires RoundTrips(c)
    requires HasId(es, id)
    requires ch.password.Some? && ch.password.value != ""
    ensures Lookup(c, Updated(c, es, id, ch, now), id).Some?
    ensures Lookup(c, Updated(c, es, id, ch, now), id).value.password == ch.password.value
  {
    var u := Updated(c, es, id, ch, now);
    UpdatedShape(c, es, id, ch, now);
    FirstIndexSameIds(u, es, id);
    assert c.decrypt(c.encrypt(ch.password.value)) == Some(ch.password.value);
  }

  /** `delete_entry` drops exactly the first match and keeps the others in their order. */
  lemma DeletedShape(es: seq<Entry>, id: string)
    requires HasId(es, id)
    ensures var i := FirstIndex(es, id).value;
      && |Deleted(es, id)| == |es| - 1
      && forall k :: 0 <= k < |es| - 1 ==> Deleted(es, id)[k] == es[if k < i then k else k + 1]
  {
    var i := FirstIndex(es, id).value;
    var d := es[..i] + es[i + 1..];
    assert Deleted(es, id) == d;
    forall k | 0 <= k < |es| - 1 ensures d[k] == es[if k < i then k else k + 1] {
      if k < i {
        assert d[k] == es[..i][k];
      } else {
        assert d[k] == es[i + 1..][k - i];
      }
    }
  }

  /** With unique ids, a deleted id is gone and the remaining ids stay unique. */
  lemma DeleteThenGet(c: Cipher, es: seq<Entry>, id: string)
    requires UniqueIds(es)
    ensures !HasId(Deleted(es, id), id)
    ensures Lookup(c, Deleted(es, id), id) == None
    ensures UniqueIds(Deleted(es, id))
  {
    if HasId(es, id) {
      var i := FirstIndex(es, id).value;
      var d := Deleted(es, id);
      DeletedShape(es, id);
      forall k | 0 <= k < |d| ensures d[k].id != id {
        var src := if k < i then k else k + 1;
        assert d[k] == es[src] && src != i;
      }
      forall a, b | 0 <= a < b < |d| ensures d[a].id != d[b].id {
        assert d[a] == es[if a < i then a else a + 1];
        assert d[b] == es[if b < i then b else b + 1];
      }
    }
  }

  /** Deleting one id does not change what `get_entry` returns for any other id. */
  lemma DeleteKeepsOthers(c: Cipher, es: seq<Entry>, id: string, other: string)
    requires other != id
    ensures Lookup(c, Deleted(es, id), other) == Lookup(c, es, other)
  {
    if HasId(es, id) {
      var i := FirstIndex(es, id).value;
      var d := Deleted(es, id);
      DeletedShape(es, id);
      assert es[i].id != other;
      if HasId(es, other) {
        var j := FirstIndex(es, other).value;
        var j' := if j < i then j else j - 1;
        assert d[j'] == es[j];
        forall k | 0 <= k < j' ensures d[k].id != other {
          assert d[k] == es[if k < i then k else k + 1];
        }
        FirstMatchIsFirstIndex(d, other, j');
      } else {
        forall k | 0 <= k < |d| ensures d[k].id != other {
          assert d[k] == es[if k < i then k else k + 1];
        }
      }
    }
  }

  /** Membership: a result is an entry of the list that passes both tests, and every such entry is a result. */
  lemma {:induction false} SearchMembership(es: seq<Entry>, query: string, categories: seq<string>, e: Entry)
    ensures e in SearchResults(es, query, categories) <==> e in es && Selected(query, categories, e)
    decreases |es|
  {
    if es != [] {
      var init := es[..|es| - 1];
      SearchMembership(init, query, categories, e);
      assert es == init + [es[|es| - 1]];
    }
  }

  /** Searching a concatenation searches each part in turn: results keep list order. */
  lemma {:induction false} SearchAppend(a: seq<Entry>, b: seq<Entry>, query: string, categories: seq<string>)
    ensures SearchResults(a + b, query, categories) == SearchResults(a, query, categories) + SearchResults(b, query, categories)
    decreases |b|
  {
    if b == [] {
      assert a + b == a;
    } else {
      var bi := b[..|b| - 1];
      assert (a + b)[..|a + b| - 1] == a + bi;
      SearchAppend(a, bi, query, categories);
    }
  }

  /** With no category filter, the empty query selects every entry. */
  lemma {:induction false} SearchEmptyQueryAll(es: seq<Entry>)
    ensures SearchResults(es, "", []) == es
    decreases |es|
  {
    if es != [] {
      var last := es[|es| - 1];
      assert Lower("") == "";
      EmptyContained(Lower(last.title));
      SearchEmptyQueryAll(es[..|es| - 1]);
    }
  }

  /** The query is compared case-insensitively: queries with the same lower case give the same results. */
  lemma {:induction false} SearchCaseInsensitive(es: seq<Entry>, q1: string, q2: string, categories: seq<string>)
    requires Lower(q1) == Lower(q2)
    ensures SearchResults(es, q1, categories) == SearchResults(es, q2, categories)
    decreases |es|
  {
    if es != [] {
      SearchCaseInsensitive(es[..|es| - 1], q1, q2, categories);
    }
  }

  /**
   * The password is never consulted: searching the decrypted listing gives the
   * decrypted copies of the results of searching the stored list.
   */
  lemma {:induction false} SearchIgnoresPassword(c: Cipher, es: seq<Entry>, query: string, categories: seq<string>)
    ensures SearchResults(ListAll(c, es, true), query, categories) == ListAll(c, SearchResults(es, query, categories), true)
    decreases |es|
  {
    if es != [] {
      var init := es[..|es| - 1];
      var last := es[|es| - 1];
      var shown := ListAll(c, es, true);
      assert shown[..|shown| - 1] == ListAll(c, init, true);
      assert Selected(query, categories, shown[|shown| - 1]) == Selected(query, categories, last);
      SearchIgnoresPassword(c, init, query, categories);
      var rest := SearchResults(init, query, categories);
      var tail := if Selected(query, categories, last) then [last] else [];
      assert ListAll(c, rest + tail, true) == ListAll(c, rest, true) + ListAll(c, tail, true);
    }
  }

  /** The filter is applied only when the category list is non-empty. */
  lemma SearchCategoryFilter(es: seq<Entry>, query: string, categories: seq<string>)
    ensures |categories| > 0 ==>
      forall e :: e in SearchResults(es, query, categories) ==> e.category in categories
  {
    forall e | e in SearchResults(es, query, categories) ensures e in es && Selected(query, categories, e) {
      SearchMembership(es, query, categories, e);
    }
  }

  /**
   * An entry titled "GitHub" in category "Work" is found by the query "git",
   * and not when the search is restricted to the category "Banking".
   */
  lemma SearchGitHubExample(e: Entry)
    requires e.title == "GitHub" && e.category == "Work"
    ensures SearchResults([e], "git", []) == [e]
    ensures SearchResults([e], "git", ["Banking"]) == []
  {
    GitInGitHub();
    assert [e][..0] == [];
  }

  /** The lower-cased query "git" occurs in the lower-cased title "GitHub". */
  lemma GitInGitHub()
    ensures Lower("git") == "git"
    ensures Contains(Lower("GitHub"), Lower("git"))
  {
    assert Lower("git") == "git";
    assert Lower("GitHub") == "github";
    assert "github"[..3] == "git";
  }

  // ---------------------------------------------------------------------
  // The store
  // ---------------------------------------------------------------------

  class PasswordStore {
    const cipher: Cipher
    var entries: seq<Entry>
    /** The entries file: what the last write-back stored, `None` while missing or not valid JSON. */
    ghost var persisted: Option<seq<Entry>>
    /** How many whole-list write-backs have happened. */
    ghost var writes: nat

    /** The list in memory is what the file holds, except that a missing or invalid file reads as no entries. */
    ghost predicate Valid()
      reads this
    {
      persisted == Some(entries) || (persisted == None && entries == [])
    }

    /** `PasswordStore(encryption_handler)`: loads the entries file. */
    constructor (c: Cipher, file: Option<seq<Entry>>)
      ensures Valid()
      ensures forall p :: cipher.encrypt(p) == c.encrypt(p) && cipher.decrypt(p) == c.decrypt(p)
      ensures file == None ==> entries == []
      ensures file.Some? ==> entries == file.value
      ensures persisted == file && writes == 0
    {
      cipher := c;
      entries := Loaded(file);
      persisted := file;
      writes := 0;
    }

    /** The `_save_entries` write-back. */
    method Save()
      modifies this`persisted, this`writes
      ensures persisted == Some(entries) && writes == old(writes) + 1
    {
      persisted := Some(entries);
      writes := writes + 1;
    }

    /** `add_entry`, with the fresh id and both clock readings supplied. */
    method AddEntry(title: string, username: string, password: string, website: string,
                    category: string, notes: string, id: string, createdAt: string, modifiedAt: string)
      returns (entryId: string)
      requires Valid()
      requires !HasId(entries, id)
      modifies this
      ensures Valid()
      ensures entryId == id
      ensures entries == old(entries) +
        [Entry(id, title, username, cipher.encrypt(password), website, category, notes, createdAt, modifiedAt)]
      ensures persisted == Some(entries) && writes == old(writes) + 1
      ensures UniqueIds(old(entries)) ==> UniqueIds(entries)
    {
      var encrypted := cipher.encrypt(password);
      var newEntry := Entry(id, title, username, encrypted, website, category, notes, createdAt, modifiedAt);
      entries := entries + [newEntry];
      Save();
      entryId := id;
    }

    /** `get_entry`: a copy of the first match, password decrypted where that succeeds. */
    method GetEntry(id: string) returns (r: Option<Entry>)
      ensures r == Lookup(cipher, entries, id)
    {
      var i := 0;
      while i < |entries|
        invariant 0 <= i <= |entries|
        invariant forall j :: 0 <= j < i ==> entries[j].id != id
      {
        var entry := entries[i];
        if entry.id == id {
          var copy := entry;
          var decrypted := cipher.decrypt(entry.password);
          if decrypted.Some? && decrypted.value != "" {
            copy := copy.(password := decrypted.value);
          }
          assert IsFirstMatch(entries, id, i);
          return Some(copy);
        }
        i := i + 1;
      }
      return None;
    }

    /** `update_entry`: each supplied field of the first match is replaced, then the list is saved. */
    method UpdateEntry(id: string, ch: Changes, now: string) returns (ok: bool)
      requires Valid()
      modifies this
      ensures Valid()
      ensures ok <==> HasId(old(entries), id)
      ensures entries == Updated(cipher, old(entries), id, ch, now)
      ensures ok ==> persisted == Some(entries) && writes == old(writes) + 1
      ensures !ok ==> persisted == old(persisted) && writes == old(writes)
    {
      var i := 0;
      while i < |entries|
        invariant 0 <= i <= |entries|
        invariant forall j :: 0 <= j < i ==> entries[j].id != id
        invariant entries == old(entries) && persisted == old(persisted) && writes == old(writes)
      {
        if entries[i].id == id {
          assert IsFirstMatch(entries, id, i);
          // The source assigns the fields of the stored record one by one; here the
          // record is rebuilt field by field and stored back once.
          var e := entries[i];
          if ch.title.Some? { e := e.(title := ch.title.value); }
          if ch.username.Some? { e := e.(username := ch.username.value); }
          if ch.password.Some? { e := e.(password := cipher.encrypt(ch.password.value)); }
          if ch.website.Some? { e := e.(website := ch.website.value); }
          if ch.category.Some? { e := e.(category := ch.category.value); }
          if ch.notes.Some? { e := e.(notes := ch.notes.value); }
          e := e.(modifiedAt := now);
          assert e == Patched(cipher, entries[i], ch, now);
          entries := entries[i := e];
          Save();
          return true;
        }
        i := i + 1;
      }
      return false;
    }

    /** `delete_entry`: the first match is removed, then the list is saved. */
    method DeleteEntry(id: string) returns (ok: bool)
      requires Valid()
      modifies this
      ensures Valid()
      ensures ok <==> HasId(old(entries), id)
      ensures entries == Deleted(old(entries), id)
      ensures ok ==> persisted == Some(entries) && writes == old(writes) + 1
      ensures !ok ==> persisted == old(persisted) && writes == old(writes)
    {
      var i := 0;
      while i < |entries|
        invariant 0 <= i <= |entries|
        invariant forall j :: 0 <= j < i ==> entries[j].id != id
        invariant entries == old(entries) && persisted == old(persisted) && writes == old(writes)
      {
        if entries[i].id == id {
          assert IsFirstMatch(entries, id, i);
          entries := entries[..i] + entries[i + 1..];
          Save();
          return true;
        }
        i := i + 1;
      }
      return false;
    }

    /** `get_all_entries`: a copy of every entry, decrypting passwords when asked. */
    method GetAllEntries(decryptPasswords: bool) returns (r: seq<Entry>)
      ensures r == ListAll(cipher, entries, decryptPasswords)
    {
      r := [];
      var i := 0;
      while i < |entries|
        invariant 0 <= i <= |entries|
        invariant r == ListAll(cipher, entries[..i], decryptPasswords)
      {
        var copy := entries[i];
        if decryptPasswords {
          var decrypted := cipher.decrypt(entries[i].password);
          if decrypted.Some? && decrypted.value != "" {
            copy := copy.(password := decrypted.value);
          }
        }
        r := r + [copy];
        i := i + 1;
      }
      assert entries[..i] == entries;
    }

    /** `search_entries`: copies of the entries that pass the category and text tests, in order. */
    method SearchEntries(query: string, categories: seq<string>) returns (r: seq<Entry>)
      ensures r == SearchResults(entries, query, categories)
    {
      r := [];
      var q := Lower(query);
      var i := 0;
      while i < |entries|
        invariant 0 <= i <= |entries|
        invariant r == SearchResults(entries[..i], query, categories)
      {
        var entry := entries[i];
        assert entries[..i + 1][..i] == entries[..i];
        if |categories| > 0 && entry.category !in categories {
          i := i + 1;
          continue;
        }
        if Contains(Lower(entry.title), q) || Contains(Lower(entry.username), q)
           || Contains(Lower(entry.website), q) || Contains(Lower(entry.notes), q)
        {
          r := r + [entry];
        }
        i := i + 1;
      }
      assert entries[..i] == entries;
    }

    /** `get_categories`: the distinct non-empty categories, in ascending order. */
    method GetCategories() returns (r: seq<string>)
      ensures StrictlyAscending(r)
      ensures forall c :: c in r <==> c in CategorySet(entries)
      ensures "" !in r
    {
      var cats: set<string> := {};
      var i := 0;
      while i < |entries|
        invariant 0 <= i <= |entries|
        invariant cats == CategorySet(entries[..i])
      {
        assert entries[..i + 1][..i] == entries[..i];
        if entries[i].category != "" {
          cats := cats + {entries[i].category};
        }
        i := i + 1;
      }
      assert entries[..i] == entries;
      r := SortedList(cats);
    }
  }
}
