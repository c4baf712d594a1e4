/**
 * The decision made by `LoginFrame._handle_login` when the user submits a
 * master password.
 *
 * The screen is in one of two modes, fixed when it is built: without a salt
 * file it creates a vault (password and confirmation), with one it unlocks
 * the vault.  The decision is a chain of guards; its outcome is either a
 * rejection message or the entries of the store handed to the session.
 * Key derivation is the parameter `derive`: the cipher that
 * `PasswordEncryption(password)` builds for a master password under the
 * installation's salt.  The creation and unlock failures the source catches
 * as exceptions (I/O errors) are not modelled.
 */
module Login {
  import opened Wrappers
  import opened Encryption
  import opened Store

  const MinMasterLength := 8

  datatype Mode = CreateVault | UnlockVault

  datatype Outcome =
    | EmptyPassword       // "Password cannot be empty"
    | PasswordsDiffer     // "Passwords do not match"
    | PasswordTooShort    // "Master password must be at least 8 characters long"
    | IncorrectPassword   // "Incorrect master password"
    | Opened(entries: seq<Entry>)  // the callback receives a store holding these entries

  /** `_check_salt_exists` picks the mode: no salt file means a new vault. */
  function ModeFor(saltExists: bool): (m: Mode)
    ensures m == CreateVault <==> !saltExists
  {
    if saltExists then UnlockVault else CreateVault
  }

  /** The password field of each entry of a listing, as looked up by key: every stored record has one. */
  function PasswordFields(listing: seq<Entry>): (r: seq<Option<string>>)
    ensures |r| == |listing|
    ensures forall i :: 0 <= i < |r| ==> r[i] == Some(listing[i].password)
  {
    seq(|listing|, i requires 0 <= i < |listing| => Some(listing[i].password))
  }

  /** The unlock rejection as written: the listing is non-empty and every password field is absent. */
  predicate RejectsAsWritten(fields: seq<Option<string>>) {
    |fields| > 0 && forall i :: 0 <= i < |fields| ==> fields[i] == None
  }

  /**
   * `_handle_login` as written.  The empty password is refused in either
   * mode; the two creation messages arise only when creating a vault and the
   * wrong-password message only when unlocking one; whatever is opened is the
   * entries file, and a vault is created only with a confirmed password of
   * at least eight characters.
   */
  function HandleLogin(password: string, confirm: string, saltExists: bool,
                       file: Option<seq<Entry>>, derive: string -> Cipher): (r: Outcome)
    ensures r == EmptyPassword <==> password == ""
    ensures r == PasswordsDiffer || r == PasswordTooShort ==> !saltExists
    ensures r == IncorrectPassword ==> saltExists
    ensures r.Opened? ==> r.entries == Loaded(file)
    ensures r.Opened? && !saltExists ==> password == confirm && |password| >= MinMasterLength
  {
    if password == "" then EmptyPassword
    else
      match ModeFor(saltExists)
      case CreateVault =>
        if password != confirm then PasswordsDiffer
        else if |password| < MinMasterLength then PasswordTooShort
        else Opened(Loaded(file))
      case UnlockVault =>
        var listing := ListAll(derive(password), Loaded(file), true);
        if RejectsAsWritten(PasswordFields(listing)) then IncorrectPassword
        else Opened(Loaded(file))
  }

  /** The check the comment at the rejection describes: entries exist and none of them decrypts. */
  predicate NoneDecrypts(c: Cipher, es: seq<Entry>) {
    |es| > 0 && forall i :: 0 <= i < |es| ==> c.decrypt(es[i].password).None?
  }

  /** `_handle_login` with the unlock check made on the decryption results. */
  function HandleLoginIntended(password: string, confirm: string, saltExists: bool,
                               file: Option<seq<Entry>>, derive: string -> Cipher): (r: Outcome)
    ensures r == EmptyPassword <==> password == ""
    ensures r == PasswordsDiffer || r == PasswordTooShort ==> !saltExists
    ensures r == IncorrectPassword ==> saltExists
    ensures r.Opened? ==> r.entries == Loaded(file)
    ensures r.Opened? && !saltExists ==> password == confirm && |password| >= MinMasterLength
  {
    if password == "" then EmptyPassword
    else
      match ModeFor(saltExists)
      case CreateVault =>
        if password != confirm then PasswordsDiffer
        else if |password| < MinMasterLength then PasswordTooShort
        else Opened(Loaded(file))
      case UnlockVault =>
        if NoneDecrypts(derive(password), Loaded(file)) then IncorrectPassword
        else Opened(Loaded(file))
  }

  // ---------------------------------------------------------------------
  // The guards, in order
  // ---------------------------------------------------------------------

  /**
   * The mode alone decides which inputs matter: unlocking never reads the
   * confirmation field, and creating a vault never uses the cipher.
   */
  lemma ModeDecidesInputs(password: string, c1: string, c2: string, file: Option<seq<Entry>>,
                          d1: string -> Cipher, d2: string -> Cipher)
    ensures HandleLogin(password, c1, true, file, d1) == HandleLogin(password, c2, true, file, d1)
    ensures HandleLogin(password, c1, false, file, d1) == HandleLogin(password, c1, false, file, d2)
  {
  }

  /** An empty password is rejected first, in either mode. */
  lemma EmptyRejectedFirst(confirm: string, saltExists: bool, file: Option<seq<Entry>>, derive: string -> Cipher)
    ensures HandleLogin("", confirm, saltExists, file, derive) == EmptyPassword
    ensures HandleLoginIntended("", confirm, saltExists, file, derive) == EmptyPassword
  {
  }

  /**
   * Creating a vault: a mismatching confirmation is reported before the
   * length, a short password is refused, and otherwise the store is opened
   * on whatever entries file is already there (none on a first run).
   */
  lemma CreateVaultRules(password: string, confirm: string, file: Option<seq<Entry>>, derive: string -> Cipher)
    requires password != ""
    ensures password != confirm ==> HandleLogin(password, confirm, false, file, derive) == PasswordsDiffer
    ensures password == confirm && |password| < 8 ==> HandleLogin(password, confirm, false, file, derive) == PasswordTooShort
    ensures password == confirm && |password| >= 8 ==> HandleLogin(password, confirm, false, file, derive) == Opened(Loaded(file))
    ensures password == confirm && |password| >= 8 && file == None ==> HandleLogin(password, confirm, false, file, derive) == Opened([])
  {
  }

  /** Unlocking: the rejection fires exactly when the listing is non-empty and every password field is `None`; an empty vault opens. */
  lemma UnlockRule(password: string, confirm: string, file: Option<seq<Entry>>, derive: string -> Cipher)
    requires password != ""
    ensures var fields := PasswordFields(ListAll(derive(password), Loaded(file), true));
      HandleLogin(password, confirm, true, file, derive) == IncorrectPassword
      <==> |fields| > 0 && forall i :: 0 <= i < |fields| ==> fields[i] == None
    ensures Loaded(file) == [] ==> HandleLogin(password, confirm, true, file, derive) == Opened([])
  {
    ListAllShape(derive(password), Loaded(file), true);
  }

  // ---------------------------------------------------------------------
  // The unlock check never fires
  // ---------------------------------------------------------------------

  /**
   * A decrypted listing keeps the ciphertext where decryption fails, so no
   * password field is ever `None` and every non-empty master password
   * unlocks every vault.
   */
  lemma UnlockNeverRejected(password: string, confirm: string, file: Option<seq<Entry>>, derive: string -> Cipher)
    requires password != ""
    ensures HandleLogin(password, confirm, true, file, derive) == Opened(Loaded(file))
  {
    var listing := ListAll(derive(password), Loaded(file), true);
    var fields := PasswordFields(listing);
    if |fields| > 0 {
      assert fields[0] != None;
    }
  }

  /** Toy key derivation for the scenarios: the master password is the key. */
  function ToyDerive(password: string): Cipher {
    Toy(password)
  }

  /** One entry sealed under the toy key "vault-key-1". */
  function SealedVault(): seq<Entry> {
    [Entry("id-1", "Email", "me@x.com", Seal("vault-key-1", "hunter2"), "", "", "", "t0", "t0")]
  }

  /**
   * A vault holding an entry sealed under one master password is unlocked,
   * as written, by a different one, while the intended check refuses it.
   */
  lemma WrongPasswordUnlocks()
    ensures HandleLogin("vault-key-2", "", true, Some(SealedVault()), ToyDerive) == Opened(SealedVault())
    ensures HandleLoginIntended("vault-key-2", "", true, Some(SealedVault()), ToyDerive) == IncorrectPassword
  {
    UnlockNeverRejected("vault-key-2", "", Some(SealedVault()), ToyDerive);
    ToyRejectsOtherKey("vault-key-1", "vault-key-2", "hunter2");
  }

  // ---------------------------------------------------------------------
  // The intended check
  // ---------------------------------------------------------------------

  /** The intended check accepts the right password: one entry sealed under it suffices. */
  lemma IntendedAcceptsOwnVault(password: string, confirm: string, file: Option<seq<Entry>>,
                                derive: string -> Cipher, k: int, secret: string)
    requires password != ""
    requires RoundTrips(derive(password))
    requires 0 <= k < |Loaded(file)| && Loaded(file)[k].password == derive(password).encrypt(secret)
    ensures HandleLoginIntended(password, confirm, true, file, derive) == Opened(Loaded(file))
  {
    assert derive(password).decrypt(Loaded(file)[k].password) == Some(secret);
  }

  /** The intended check refuses a non-empty vault none of whose entries decrypts, and only such a vault. */
  lemma IntendedRejectsForeignVault(password: string, confirm: string, file: Option<seq<Entry>>, derive: string -> Cipher)
    requires password != ""
    ensures HandleLoginIntended(password, confirm, true, file, derive) == IncorrectPassword
            <==> NoneDecrypts(derive(password), Loaded(file))
  {
  }

  /** Apart from the unlock check, the intended decision agrees with the source. */
  lemma IntendedAgreesOnCreate(password: string, confirm: string, file: Option<seq<Entry>>, derive: string -> Cipher)
    ensures HandleLoginIntended(password, confirm, false, file, derive) == HandleLogin(password, confirm, false, file, derive)
  {
  }

  // ---------------------------------------------------------------------
  // A session from start to finish
  // ---------------------------------------------------------------------

  /**
   * Create a vault, add an entry, lock, unlock with the same master password:
   * the entry's password reads back as its plaintext.
   */
  lemma CreateAddUnlockGet(master: string, id: string, title: string, username: string, secret: string,
                           derive: string -> Cipher, t0: string, t1: string)
    requires |master| >= 8
    requires RoundTrips(derive(master))
    requires secret != ""
    ensures HandleLogin(master, master, false, None, derive) == Opened([])
    ensures var saved := [Entry(id, title, username, derive(master).encrypt(secret), "", "", "", t0, t1)];
      && HandleLogin(master, "", true, Some(saved), derive) == Opened(saved)
      && Lookup(derive(master), saved, id) == Some(Entry(id, title, username, secret, "", "", "", t0, t1))
      && HandleLoginIntended(master, "", true, Some(saved), derive) == Opened(saved)
  {
    var saved := [Entry(id, title, username, derive(master).encrypt(secret), "", "", "", t0, t1)];
    UnlockNeverRejected(master, "", Some(saved), derive);
    AddThenGet(derive(master), [], id, title, username, secret, "", "", "", t0, t1);
    assert [] + saved == saved;
    IntendedAcceptsOwnVault(master, "", Some(saved), derive, 0, secret);
  }
}
