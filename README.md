# SecureVault password manager: a verified model of its core

SecureVault is a desktop password manager. A master password unlocks a vault
of credential entries. Each entry has a title, a user name, a website, a
category, notes and an encrypted password. The vault can also generate
random passwords and rate how strong a password is.

This project models three parts of it and proves properties of them:

- **The entry store** (`PasswordStore`, module `Store`). It is a class whose
  `entries` field is the ordered list of records. Its methods follow the
  source's loops: add, get, update, delete, list, search and categories.
  - Each method is proved against a specification function on the list
    (`Lookup`, `Updated`, `Deleted`, `ListAll`, `SearchResults`,
    `CategorySet`).
  - Lemmas relate those functions to one another: add then get, update then
    get, delete then get, the order of search results, and the fact that
    search never looks at the password.
  - The entries file is the ghost field `persisted`. `writes` counts the
    whole-list saves.
- **The password generator** (module `Generator`).
  - `GeneratePassword` is a method. Random draws are nondeterministic
    choices, and the shuffle is an in-place Fisher–Yates pass over an array
    with arbitrary swap indices.
  - Its contract states the two error conditions, the exact length, that
    every character comes from the selected pool, and that each selected
    class is present.
  - `EvaluateStrength` and `StrengthCategory` are functions. The score is
    computed in half points, which makes the source's `2.5 * len` exact.
    Python's round-half-to-even is written out.
- **The login decision** (module `Login`). `HandleLogin` is a pure function
  of:
  - the typed password and its confirmation;
  - whether the salt file exists;
  - the entries file;
  - key derivation, given as a parameter.

  It returns the message shown or the entries opened.

Supporting modules:

- `Encryption` models a session cipher as a pair of total functions,
  `encrypt` and `decrypt`. `decrypt` gives `None` on any failure. The Fernet
  guarantee that decryption undoes encryption under the same key is the
  predicate `RoundTrips`. Lemmas that need it take it as a precondition.
  `Toy` is a keyed cipher that satisfies `RoundTrips` and refuses tokens
  sealed under another key of the same length. It shows the predicate can be met, and it serves
  as the cipher of the concrete scenarios.
- `Strings` models `str.lower()` on ASCII letters, the substring test
  `q in s`, Python's code-point ordering of strings, and `sorted`.
- `Wrappers` defines `Option` and `Result`.

## Model

| member | source | states |
|---|---|---|
| Store.PasswordStore.constructor | src/core/password_store.py:10-27 | the store starts with the file's records, or with none when the file is missing or not valid JSON (`_load_entries`); the in-memory list agrees with the file, and nothing has been saved yet |
| Store.PasswordStore.Save | src/core/password_store.py:29-32 | a save writes the whole current list to the file and counts one write-back |
| Store.PasswordStore.AddEntry | src/core/password_store.py:34-53 | the list grows by exactly the new record at the end: supplied id, given fields, `encrypt(password)`, both timestamps; earlier entries are unchanged; the id is returned; the list is saved once; unique ids stay unique |
| Store.PasswordStore.GetEntry | src/core/password_store.py:55-66 | the scan returns exactly `Lookup`: nothing when no entry has the id, else a copy of the first match whose password is decrypted only when decryption yields a non-empty string; the store is not changed |
| Store.PasswordStore.UpdateEntry | src/core/password_store.py:68-89 | returns true iff the id is present; the list becomes `Updated` (only the first match is patched); a successful update saves once, a failed one saves nothing and changes nothing |
| Store.PasswordStore.DeleteEntry | src/core/password_store.py:91-98 | returns true iff the id is present; the list becomes `Deleted` (the first match removed); a successful delete saves once, a failed one saves nothing and changes nothing |
| Store.PasswordStore.GetAllEntries | src/core/password_store.py:100-110 | the loop builds exactly `ListAll`: one copy per entry, in order, decrypted where asked and where decryption succeeds |
| Store.PasswordStore.SearchEntries | src/core/password_store.py:112-127 | the loop with its early `continue` builds exactly `SearchResults`: the entries passing the category test (only when the list is non-empty) and the lower-cased substring test on title, user name, website or notes, in list order |
| Store.PasswordStore.GetCategories | src/core/password_store.py:129-135 | the result is strictly ascending, so it has no duplicates; it holds exactly the non-empty categories in use; it never holds the empty string |
| Store.FirstIndex | src/core/password_store.py:57-58 | the scan for an id stops nowhere iff no entry has the id, and otherwise at the first entry that has it |
| Store.Lookup | src/core/password_store.py:55-66 | `get_entry` answers nothing exactly when the id is absent; otherwise it answers the revealed copy of the first match |
| Store.Shown | src/core/password_store.py:62-64 | a copy shows the decrypted plaintext whenever decryption yields a non-empty string, and the stored text whenever decryption fails or yields the empty string |
| Store.Revealed | src/core/password_store.py:60-64 | a revealed copy differs from the entry at most in its password |
| Store.Patched | src/core/password_store.py:73-86 | a patched record keeps its id and creation time and carries the new modification time; with no field supplied only that time changes |
| Store.Updated | src/core/password_store.py:71-89 | an update keeps the list length, and an unknown id leaves the list as it was |
| Store.Deleted | src/core/password_store.py:93-98 | a delete of a present id shortens the list by one, and an unknown id leaves the list as it was |
| Store.ListAll | src/core/password_store.py:102-110 | the listing has one copy per entry, with the same id at each position |
| Store.SearchResults | src/core/password_store.py:114-127 | the results are never more than the entries; `SearchMembership` and `SearchAppend` give which entries and in what order |
| Store.CategorySet | src/core/password_store.py:131-134 | the categories in use never include the empty category |
| Store.FirstMatchIsFirstIndex | src/core/password_store.py:57-58 | the first match is unique: any position holding the id with no earlier holder is the one the scan finds |
| Store.FirstIndexSameIds | src/core/password_store.py:71-72 | lists with the same ids position by position have the same first match, so patching fields never moves the match |
| Store.AddThenGet | src/core/password_store.py:34-66 | after adding a non-empty password under a fresh id, `get_entry` returns the record with the plaintext password |
| Store.AddEmptyPasswordShowsCiphertext | src/core/password_store.py:62-64 | an empty password decrypts to a falsy value, so `get_entry` returns the ciphertext instead |
| Store.ListAllShape | src/core/password_store.py:100-110 | the listing keeps length, order and every field except the password; without decryption it is the list itself; with decryption, a password that decrypts to a non-empty plaintext is shown as that plaintext, and a failed decryption keeps the ciphertext, never `None` |
| Store.UpdatedShape | src/core/password_store.py:71-86 | an update keeps the length, every id and every creation time; it changes no entry except the first match; unique ids stay unique |
| Store.UpdatedFields | src/core/password_store.py:73-86 | on the match, each supplied field replaces its value (the password by its encryption), each `None` keeps the old value, and the modification time is the supplied one |
| Store.UpdateTitleOnly | src/core/password_store.py:73-86 | setting only the title changes the title and modification time of the first match and nothing else in the list |
| Store.UpdatePasswordThenGet | src/core/password_store.py:77-78 | after a password change, `get_entry` shows the new plaintext |
| Store.DeletedShape | src/core/password_store.py:93-95 | a delete drops exactly the first match: the length falls by one and the other entries keep their order |
| Store.DeleteThenGet | src/core/password_store.py:91-98 | with unique ids, a deleted id can no longer be found, and the remaining ids stay unique |
| Store.DeleteKeepsOthers | src/core/password_store.py:91-98 | deleting one id does not change what `get_entry` returns for any other id |
| Store.SearchMembership | src/core/password_store.py:117-125 | an entry is a result iff it is in the list and passes both tests |
| Store.SearchAppend | src/core/password_store.py:117-125 | searching a concatenation gives the results of the first part followed by those of the second, so results keep list order |
| Store.SearchEmptyQueryAll | src/core/password_store.py:115-124 | with no category filter, the empty query returns every entry |
| Store.SearchCaseInsensitive | src/core/password_store.py:115 | queries with the same lower case give the same results |
| Store.SearchIgnoresPassword | src/core/password_store.py:121-124 | the password is never consulted: searching the decrypted listing gives the decrypted copies of the stored results |
| Store.SearchCategoryFilter | src/core/password_store.py:118-119 | with a non-empty category list, every result's category is in the list |
| Store.SearchGitHubExample | src/core/password_store.py:112-127 | an entry titled "GitHub" in "Work" is found by "git", and not when the search is limited to "Banking" |
| Store.GitInGitHub | src/core/password_store.py:115-121 | the lower-cased "git" occurs in the lower-cased "GitHub" |
| Strings.Lower | src/core/password_store.py:115 | lowering keeps the length and lowers each character |
| Strings.Contains | src/core/password_store.py:121-124 | the offset scan answers true iff the query occurs at some offset |
| Strings.EmptyContained | src/core/password_store.py:121 | the empty query occurs in every string |
| Strings.Insert | src/core/password_store.py:135 | inserting into a strictly ascending list keeps it strictly ascending and adds exactly the new element |
| Strings.SortedList | src/core/password_store.py:135 | the sorted list of a set is strictly ascending and has exactly the set's elements |
| Strings.AscendingUnique | src/core/password_store.py:135 | two strictly ascending lists with the same elements are equal, so the sorted order has only one answer |
| Strings.LessIrreflexive | src/core/password_store.py:135 | no string is below itself in Python's order |
| Strings.LessTransitive | src/core/password_store.py:135 | Python's string order is transitive |
| Strings.LessTotal | src/core/password_store.py:135 | any two different strings are ordered one way or the other |
| Strings.LessAsymmetric | src/core/password_store.py:135 | if one string is below another, the second is not below the first |
| Encryption.ToyRoundTrips | src/core/encryption.py:42-51 | the toy cipher meets the round-trip property, so the precondition `RoundTrips` can be satisfied |
| Encryption.ToyRejectsOtherKey | src/core/encryption.py:46-51 | a token sealed under one key fails to decrypt (`None`) under a different key of the same length |
| Generator.GeneratePassword | src/core/password_generator.py:15-55 | fails with "too short" iff `length < 4` and more classes are selected than `length`; otherwise fails with "no type" iff none is selected; on success the password has exactly `length` characters, all from the selected pool, with at least one from each selected class |
| Generator.Choose | src/core/password_generator.py:40-50 | a random choice from a non-empty alphabet is one of its characters |
| Generator.Shuffle | src/core/password_generator.py:53 | the shuffle keeps the length and the multiset of characters |
| Generator.RequiredChars | src/core/password_generator.py:38-46 | one character per selected class, each from its own alphabet, all in the pool |
| Generator.DrawsUnderPermutation | src/core/password_generator.py:53 | a permutation still holds a character of each alphabet the original held |
| Generator.PoolMembers | src/core/password_generator.py:27-35 | the pool holds exactly the characters of the selected alphabets |
| Generator.PoolNonEmpty | src/core/password_generator.py:27-35 | with a class selected, the pool has at least ten characters, so `random.choice` on it cannot fail |
| Generator.Pool | src/core/password_generator.py:27-35 | the pool has 26 characters per selected letter class, 10 for digits and 28 for specials |
| Generator.RoundHalfEven | src/core/password_generator.py:78 | `round` of a half-point value gives an integer within half a point of it, and an even one whenever the value is a tie |
| Generator.RoundHalfEvenNearest | src/core/password_generator.py:78 | those two properties determine the result, so the function is Python's round-half-to-even (17.5 to 18, 22.5 to 22) |
| Generator.RoundMonotone | src/core/password_generator.py:78 | rounding never reverses the order of two values |
| Generator.ScoreFor | src/core/password_generator.py:64-78 | the score lies in 0..100 and is within half a point of the length part, capped at 40, plus 15 per class, capped at 100 |
| Generator.EvaluateStrength | src/core/password_generator.py:57-78 | the empty password scores 0; any other scores within half a point of `min(2.5 * len, 40) + 15 * classes`, capped at 100, with the classes counted as the regular expressions are written |
| Generator.EvaluateStrengthIntended | src/core/password_generator.py:57-78 | the same score with the special class as intended: 0 for the empty password, otherwise within half a point of the capped sum |
| Generator.IntendedNeverAbove | src/core/password_generator.py:71 | the intended score never exceeds the score as written, since every intended special character also passes the written test |
| Generator.ScoreMonotone | src/core/password_generator.py:64-78 | a longer password, or one with more classes, never scores lower |
| Generator.AppendNeverWeakens | src/core/password_generator.py:57-78 | appending characters never lowers the score |
| Generator.AlphabetMembers | src/core/password_generator.py:10-12 | the lower-case, upper-case and digit alphabets are exactly the ASCII ranges the score tests |
| Generator.DigitOrUpperIsSpecial | src/core/password_generator.py:71 | as written, every digit and upper-case letter passes the special-character test |
| Generator.SpecialCharsMembers | src/core/password_generator.py:13 | every generator special character passes the score's special test and is not a letter or digit |
| Generator.LowerIsNotSpecial | src/core/password_generator.py:68-71 | no lower-case letter passes either version of the special test |
| Generator.FullVarietyScoresTop | src/core/password_generator.py:57-89 | a password of 16 or more characters with all four classes scores 100, "Very Strong" |
| Generator.CategoryMonotone | src/core/password_generator.py:80-89 | categories change exactly at 40, 70 and 90; a higher score never gets a lower category |
| Generator.StrengthCategory | src/core/password_generator.py:80-89 | every integer score, of any size, gets one of the four categories "Weak", "Moderate", "Strong", "Very Strong" |
| Generator.SpecialRangeOvercounts | src/core/password_generator.py:71 | "a1" scores 50, "Moderate", as written, and 35, "Weak", with the intended class |
| Generator.PoolCharClass | src/core/password_generator.py:27-35 | a pool character of a class the score tests belongs to a selected class |
| Generator.IntendedCountsSelectedClasses | src/core/password_generator.py:68-73 | with the intended special class, a generated password is credited with exactly the selected classes |
| Generator.AsWrittenCreditsExtraClass | src/core/password_generator.py:68-73 | as written, a generated password with upper-case letters or digits but no specials is credited with one class too many |
| Login.HandleLogin | src/ui/login_frame.py:153-197 | the empty password is refused, and in either mode only it; mismatch and too-short arise only when creating a vault, the wrong-password message only when unlocking; whatever opens is the entries file; a vault is created only with a confirmed password of at least 8 characters. Its helper `ModeFor` is the branch on the salt file (:16-23, :161), and `PasswordFields` is `entry.get("password")` (:191) |
| Login.HandleLoginIntended | src/ui/login_frame.py:187-195 | the corrected decision obeys the same outcome rules as `HandleLogin`; when it refuses an unlock is stated by `IntendedRejectsForeignVault` |
| Login.ModeDecidesInputs | src/ui/login_frame.py:161-195 | unlocking never reads the confirmation, and creating never uses the cipher |
| Login.EmptyRejectedFirst | src/ui/login_frame.py:155-159 | an empty password is rejected before any other check, in either mode |
| Login.CreateVaultRules | src/ui/login_frame.py:161-178 | in create mode, a mismatch is reported before the length; a password shorter than 8 is refused; otherwise the store opens on the existing entries file, which is empty on a first run |
| Login.UnlockRule | src/ui/login_frame.py:183-195 | in unlock mode, the rejection fires iff the decrypted listing is non-empty and every password field is `None`; an empty vault opens with any password |
| Login.UnlockNeverRejected | src/ui/login_frame.py:188-195 | every non-empty master password unlocks every vault, because the listing keeps the ciphertext where decryption fails |
| Login.WrongPasswordUnlocks | src/ui/login_frame.py:191 | a vault sealed under "vault-key-1" is opened by "vault-key-2" as written, and refused by the intended check |
| Login.IntendedAcceptsOwnVault | src/ui/login_frame.py:187-191 | the intended check opens a vault holding an entry sealed under the same master password |
| Login.IntendedRejectsForeignVault | src/ui/login_frame.py:187-191 | the intended check refuses exactly a non-empty vault none of whose entries decrypts |
| Login.IntendedAgreesOnCreate | src/ui/login_frame.py:161-178 | in create mode the intended decision is the source's |
| Login.CreateAddUnlockGet | src/ui/login_frame.py:161-195 | creating a vault, adding an entry, then unlocking with the same master password opens it, and `get_entry` shows the plaintext |

## Left out

- The PBKDF2-HMAC-SHA256 key derivation, the salt file's contents and Fernet
  itself are library code. A session's cipher is a parameter, `derive` in the
  login model. Fernet encryption is randomised, but `encrypt` is modelled as
  a function, so two encryptions of the same text in one session are
  identical here.
- `validate_master_password` is never called by the core and is not modelled.
- JSON reading and writing, directory creation and file paths are left out.
  The entries file is `Option<seq<Entry>>`, with `None` for a missing file
  or one that is not valid JSON, the two errors `_load_entries` catches. A
  file that exists but cannot be opened or decoded as text raises instead;
  that exception reaches `_handle_login` and is not modelled. The write-back is the ghost snapshot `persisted`. Records
  with missing keys or non-string values cannot be written in the model,
  because `Entry` has nine string fields.
- `uuid4` and `datetime.now()` are left out. The id and the timestamps are
  arguments of the methods, and a fresh id is a precondition of `AddEntry`.
  `add_entry` reads the clock twice, so it takes two timestamps.
- `search_entries` accepts `categories=None`. It behaves exactly like the
  empty list, so the model has only a list parameter.
- `str.lower()`, `\d` and the substring test are modelled on ASCII
  characters. Unicode case mapping and Unicode digits are not modelled.
- The distribution of `random.choice` and `random.shuffle` is left out. Only
  the set of possible outcomes is modelled.
- The exceptions `_handle_login` catches are not modelled: failures to
  create or open the vault, which come from the file system or the cipher.
- The message boxes, widgets, timers for auto-lock and clipboard clearing,
  and the dashboard's own list filter are presentation code and are left
  out.

## Findings

| source | as written | input that shows it | evidently intended | confidence | as-written member | corrected member |
|---|---|---|---|---|---|---|
| src/ui/login_frame.py:191 | the vault is refused only when every listed entry's password field is `None`, but `get_all_entries` keeps the ciphertext string when decryption fails, so the test never holds | a vault with one entry sealed under "vault-key-1", unlocked with "vault-key-2": the vault opens | refuse a non-empty vault none of whose entries decrypts under the derived key | not executed | Login.UnlockNeverRejected, Login.WrongPasswordUnlocks | Login.HandleLoginIntended, proved by Login.IntendedRejectsForeignVault and Login.IntendedAcceptsOwnVault |
| src/core/password_generator.py:71 | the unescaped `)-_` in the special-character class is the range from `)` to `_`, so digits and upper-case letters also count as special characters | "a1" is credited with three classes and scores 50, "Moderate" | the special class is the generator's own special alphabet; "a1" has two classes and scores 35, "Weak" | not executed | Generator.SpecialRangeOvercounts, Generator.AsWrittenCreditsExtraClass | Generator.EvaluateStrengthIntended, proved by Generator.IntendedCountsSelectedClasses |
