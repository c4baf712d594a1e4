/**
 * `PasswordGenerator`: random passwords drawn from the selected character
 * classes, and the strength score and category shown beside them.
 *
 * `random.choice` and `random.shuffle` are modelled as nondeterministic
 * choice: every statement proved about `GeneratePassword` holds for every
 * sequence of random draws.  The strength score is computed in half points,
 * which makes the source's floating-point arithmetic exact.
 */
module Generator {
  import opened Wrappers

  const LowercaseChars: string := "abcdefghijklmnopqrstuvwxyz"
  const UppercaseChars: string := "ABCDEFGHIJKLMNOPQRSTUVWXYZ"
  const DigitChars: string := "0123456789"
  const SpecialChars: string := "!@#$%^&*()-_=+[]{}|;:,.<>?/~"

  /** The four `include_*` flags of `generate_password`. */
  datatype Selection = Selection(lower: bool, upper: bool, digits: bool, special: bool)

  /** The two `ValueError`s of `generate_password`. */
  datatype GenError = LengthTooShort | NoCharacterType

  function Bit(b: bool): nat {
    if b then 1 else 0
  }

  /** How many character classes are selected, each flag counting as 0 or 1. */
  function SelectedCount(sel: Selection): nat {
    Bit(sel.lower) + Bit(sel.upper) + Bit(sel.digits) + Bit(sel.special)
  }

  /** One step of building the pool: a selected class appends its alphabet. */
  function Extend(pool: string, selected: bool, chars: string): string {
    if selected then pool + chars else pool
  }

  /** The character pool: the alphabets of the selected classes, concatenated in the source's order. */
  function Pool(sel: Selection): (p: string)
    ensures |p| == (if sel.lower then 26 else 0) + (if sel.upper then 26 else 0)
                 + (if sel.digits then 10 else 0) + (if sel.special then 28 else 0)
  {
    Extend(Extend(Extend(Extend("", sel.lower, LowercaseChars), sel.upper, UppercaseChars),
                  sel.digits, DigitChars), sel.special, SpecialChars)
  }

  /** The pool holds exactly the characters of the selected alphabets. */
  lemma PoolMembers(sel: Selection, c: char)
    ensures c in Pool(sel) <==>
      (sel.lower && c in LowercaseChars) || (sel.upper && c in UppercaseChars)
      || (sel.digits && c in DigitChars) || (sel.special && c in SpecialChars)
  {
  }

  lemma PoolNonEmpty(sel: Selection)
    requires SelectedCount(sel) > 0
    ensures |Pool(sel)| >= 10
  {
  }

  /** Some character of `s` comes from `alphabet`. */
  predicate Draws(s: string, alphabet: string) {
    exists i :: 0 <= i < |s| && s[i] in alphabet
  }

  /** `random.choice(alphabet)`: any one of its characters. */
  method Choose(alphabet: string) returns (c: char)
    requires alphabet != ""
    ensures c in alphabet
  {
    assert alphabet[0] in alphabet;
    c :| c in alphabet;
  }

  /** `random.shuffle`: a Fisher-Yates pass with arbitrary draws, hence some permutation. */
  method Shuffle(s: seq<char>) returns (t: seq<char>)
    ensures |t| == |s|
    ensures multiset(t) == multiset(s)
  {
    var a := new char[|s|](k requires 0 <= k < |s| => s[k]);
    assert a[..] == s;
    var i := a.Length;
    while i > 1
      invariant 0 <= i <= a.Length
      invariant multiset(a[..]) == multiset(s)
    {
      i := i - 1;
      var j :| 0 <= j <= i;
      a[i], a[j] := a[j], a[i];
    }
    t := a[..];
  }

  /** Some character of each selected class, drawn in the source's order. */
  method RequiredChars(sel: Selection) returns (req: seq<char>)
    ensures |req| == SelectedCount(sel)
    ensures forall i :: 0 <= i < |req| ==> req[i] in Pool(sel)
    ensures sel.lower ==> Draws(req, LowercaseChars)
    ensures sel.upper ==> Draws(req, UppercaseChars)
    ensures sel.digits ==> Draws(req, DigitChars)
    ensures sel.special ==> Draws(req, SpecialChars)
  {
    req := [];
    if sel.lower {
      var c := Choose(LowercaseChars);
      req := req + [c];
    }
    if sel.upper {
      var c := Choose(UppercaseChars);
      req := req + [c];
    }
    if sel.digits {
      var c := Choose(DigitChars);
      req := req + [c];
    }
    if sel.special {
      var c := Choose(SpecialChars);
      req := req + [c];
    }
    assert sel.lower ==> req[0] in LowercaseChars;
    assert sel.upper ==> req[Bit(sel.lower)] in UppercaseChars;
    assert sel.digits ==> req[Bit(sel.lower) + Bit(sel.upper)] in DigitChars;
    assert sel.special ==> req[Bit(sel.lower) + Bit(sel.upper) + Bit(sel.digits)] in SpecialChars;
  }

  /** A permutation draws from the same alphabets. */
  lemma DrawsUnderPermutation(s: seq<char>, t: seq<char>, alphabet: string)
    requires multiset(s) == multiset(t)
    requires Draws(s, alphabet)
    ensures Draws(t, alphabet)
  {
    var i :| 0 <= i < |s| && s[i] in alphabet;
    assert s[i] in multiset(t);
    var j :| 0 <= j < |t| && t[j] == s[i];
  }

  /** `generate_password`. */
  method GeneratePassword(length: int, sel: Selection) returns (r: Result<string, GenError>)
    ensures r == Err(LengthTooShort) <==> length < 4 && SelectedCount(sel) > length
    ensures r == Err(NoCharacterType) <==> !(length < 4 && SelectedCount(sel) > length) && SelectedCount(sel) == 0
    ensures r.Ok? ==> |r.value| == length
    ensures r.Ok? ==> forall i :: 0 <= i < |r.value| ==> r.value[i] in Pool(sel)
    ensures r.Ok? && sel.lower ==> Draws(r.value, LowercaseChars)
    ensures r.Ok? && sel.upper ==> Draws(r.value, UppercaseChars)
    ensures r.Ok? && sel.digits ==> Draws(r.value, DigitChars)
    ensures r.Ok? && sel.special ==> Draws(r.value, SpecialChars)
  {
    var count := SelectedCount(sel);
    if length < 4 && count > length {
      return Err(LengthTooShort);
    }
    if count == 0 {
      return Err(NoCharacterType);
    }

    var pool := "";
    if sel.lower { pool := pool + LowercaseChars; }
    assert pool == Extend("", sel.lower, LowercaseChars);
    if sel.upper { pool := pool + UppercaseChars; }
    if sel.digits { pool := pool + DigitChars; }
    if sel.special { pool := pool + SpecialChars; }
    assert pool == Pool(sel);
    PoolNonEmpty(sel);

    var password := RequiredChars(sel);
    ghost var required := password;

    // Fill the remaining positions with draws from the whole pool.
    var remaining := length - |password|;
    var k := 0;
    while k < remaining
      invariant 0 <= k && (remaining >= 0 ==> k <= remaining)
      invariant |password| == count + k
      invariant password[..count] == required
      invariant forall i :: 0 <= i < |password| ==> password[i] in pool
    {
      var c := Choose(pool);
      password := password + [c];
      k := k + 1;
    }
    assert |password| == length;

    var shuffled := Shuffle(password);
    forall i | 0 <= i < |shuffled| ensures shuffled[i] in pool {
      assert shuffled[i] in multiset(password);
    }
    forall alphabet | Draws(required, alphabet) ensures Draws(shuffled, alphabet) {
      var i :| 0 <= i < |required| && required[i] in alphabet;
      assert password[i] == required[i];
      DrawsUnderPermutation(password, shuffled, alphabet);
    }
    return Ok(shuffled);
  }

  // ---------------------------------------------------------------------
  // Strength score
  // ---------------------------------------------------------------------

  /** `[a-z]` */
  predicate IsLowerAscii(c: char) { 'a' <= c <= 'z' }

  /** `[A-Z]` */
  predicate IsUpperAscii(c: char) { 'A' <= c <= 'Z' }

  /** `\d`, for the ASCII digits. */
  predicate IsDigitAscii(c: char) { '0' <= c <= '9' }

  /**
   * The class `[!@#$%^&*()-_=+\[\]{}|;:,.<>?/~]` as the regular expression
   * engine reads it: the unescaped `)-_` is the range from `)` to `_`, which
   * takes in the digits, the upper-case letters and more punctuation.
   */
  predicate IsSpecialAsWritten(c: char) {
    c in "!@#$%^&*(" || (')' <= c <= '_') || c in "=+[]{}|;:,.<>?/~"
  }

  /** The class its authors evidently meant: the generator's own special alphabet. */
  predicate IsSpecialIntended(c: char) {
    c in SpecialChars
  }

  predicate HasLower(s: string) { exists i :: 0 <= i < |s| && IsLowerAscii(s[i]) }
  predicate HasUpper(s: string) { exists i :: 0 <= i < |s| && IsUpperAscii(s[i]) }
  predicate HasDigit(s: string) { exists i :: 0 <= i < |s| && IsDigitAscii(s[i]) }
  predicate HasSpecialAsWritten(s: string) { exists i :: 0 <= i < |s| && IsSpecialAsWritten(s[i]) }
  predicate HasSpecialIntended(s: string) { exists i :: 0 <= i < |s| && IsSpecialIntended(s[i]) }

  /** `char_type_count` as the source computes it. */
  function VarietyCount(s: string): nat {
    Bit(HasLower(s)) + Bit(HasUpper(s)) + Bit(HasDigit(s)) + Bit(HasSpecialAsWritten(s))
  }

  /** `char_type_count` with the intended special class. */
  function VarietyCountIntended(s: string): nat {
    Bit(HasLower(s)) + Bit(HasUpper(s)) + Bit(HasDigit(s)) + Bit(HasSpecialIntended(s))
  }

  function Min(a: int, b: int): int {
    if a <= b then a else b
  }

  /** Python's `round(h / 2)`: to the nearest integer, halves to the even neighbour. */
  function RoundHalfEven(h: nat): (r: nat)
    ensures -1 <= 2 * r - h <= 1
    ensures 2 * r != h ==> r % 2 == 0
  {
    if h % 2 == 0 then h / 2
    else if (h / 2) % 2 == 0 then h / 2
    else h / 2 + 1
  }

  /**
   * The score: 2.5 points per character up to 40, plus 15 per class,
   * rounded and capped at 100; the empty password scores zero.  In half points the length part is `min(5 * len, 80)`
   * and each class is worth 30, so every intermediate value is an integer.
   */
  function ScoreFor(length: nat, count: nat): (r: int)
    ensures 0 <= r <= 100
    ensures -1 <= 2 * r - Min(Min(5 * length, 80) + 30 * count, 200) <= 1
  {
    Min(RoundHalfEven(Min(5 * length, 80) + 30 * count), 100)
  }

  /** `evaluate_strength`. */
  function EvaluateStrength(password: string): (r: int)
    ensures 0 <= r <= 100
    ensures password == "" ==> r == 0
    ensures password != "" ==> -1 <= 2 * r - Min(Min(5 * |password|, 80) + 30 * VarietyCount(password), 200) <= 1
  {
    if password == "" then 0 else ScoreFor(|password|, VarietyCount(password))
  }

  /** `evaluate_strength` with the special class escaped as intended. */
  function EvaluateStrengthIntended(password: string): (r: int)
    ensures 0 <= r <= 100
    ensures password == "" ==> r == 0
    ensures password != "" ==> -1 <= 2 * r - Min(Min(5 * |password|, 80) + 30 * VarietyCountIntended(password), 200) <= 1
  {
    if password == "" then 0 else ScoreFor(|password|, VarietyCountIntended(password))
  }

  /** The position of a category on the scale from "Weak" to "Very Strong". */
  function CategoryRank(category: string): int {
    if category == "Weak" then 0
    else if category == "Moderate" then 1
    else if category == "Strong" then 2
    else if category == "Very Strong" then 3
    else -1
  }
  /** `get_strength_category`. */
  function StrengthCategory(score: int): (r: string)
    ensures 0 <= CategoryRank(r) <= 3
  {
    if score < 40 then "Weak"
    else if score < 70 then "Moderate"
    else if score < 90 then "Strong"
    else "Very Strong"
  }



  /**
   * Nearest with ties to even determines the result: any integer within half
   * a point of `h / 2` that is even unless it is exact is `RoundHalfEven(h)`
   * (17.5 rounds to 18, 22.5 to 22).
   */
  lemma RoundHalfEvenNearest(h: nat, r: int)
    requires -1 <= 2 * r - h <= 1
    requires 2 * r != h ==> r % 2 == 0
    ensures r == RoundHalfEven(h)
    ensures RoundHalfEven(35) == 18 && RoundHalfEven(45) == 22
  {
  }

  /** The three letter-and-digit alphabets are exactly the ASCII ranges the score tests. */
  lemma AlphabetMembers(c: char)
    ensures c in LowercaseChars <==> IsLowerAscii(c)
    ensures c in UppercaseChars <==> IsUpperAscii(c)
    ensures c in DigitChars <==> IsDigitAscii(c)
  {
  }

  /** As written, a digit or an upper-case letter also passes for a special character. */
  lemma DigitOrUpperIsSpecial(c: char)
    requires IsDigitAscii(c) || IsUpperAscii(c)
    ensures IsSpecialAsWritten(c)
  {
  }

  /** Every character of the generator's special alphabet passes the score's special test, and none is a letter or digit. */
  lemma SpecialCharsMembers(c: char)
    requires c in SpecialChars
    ensures IsSpecialAsWritten(c)
    ensures !IsLowerAscii(c) && !IsUpperAscii(c) && !IsDigitAscii(c)
  {
  }

  /** No lower-case letter passes either special test. */
  lemma LowerIsNotSpecial(c: char)
    requires IsLowerAscii(c)
    ensures !IsSpecialAsWritten(c) && !IsSpecialIntended(c)
  {
  }

  /** A long password with characters of all four classes scores 100: "Very Strong". */
  lemma FullVarietyScoresTop(s: string)
    requires |s| >= 16
    requires Draws(s, LowercaseChars) && Draws(s, UppercaseChars) && Draws(s, DigitChars) && Draws(s, SpecialChars)
    ensures EvaluateStrength(s) == 100
    ensures StrengthCategory(EvaluateStrength(s)) == "Very Strong"
  {
    var a :| 0 <= a < |s| && s[a] in LowercaseChars;
    var b :| 0 <= b < |s| && s[b] in UppercaseChars;
    var c :| 0 <= c < |s| && s[c] in DigitChars;
    var d :| 0 <= d < |s| && s[d] in SpecialChars;
    AlphabetMembers(s[a]);
    AlphabetMembers(s[b]);
    AlphabetMembers(s[c]);
    SpecialCharsMembers(s[d]);
    assert HasLower(s) && HasUpper(s) && HasDigit(s) && HasSpecialAsWritten(s);
    assert VarietyCount(s) == 4;
  }

  /** Rounding to the nearest integer, halves to even, never reverses the order of two values. */
  lemma RoundMonotone(h1: nat, h2: nat)
    requires h1 <= h2
    ensures RoundHalfEven(h1) <= RoundHalfEven(h2)
  {
  }

  /** A longer password, or one with more classes, never scores lower. */
  lemma ScoreMonotone(l1: nat, l2: nat, c1: nat, c2: nat)
    requires l1 <= l2 && c1 <= c2
    ensures ScoreFor(l1, c1) <= ScoreFor(l2, c2)
  {
    RoundMonotone(Min(5 * l1, 80) + 30 * c1, Min(5 * l2, 80) + 30 * c2);
  }

  /** Appending characters to a password never lowers its score. */
  lemma AppendNeverWeakens(s: string, t: string)
    ensures EvaluateStrength(s) <= EvaluateStrength(s + t)
  {
    var u := s + t;
    if s != "" {
      if HasLower(s) { var i :| 0 <= i < |s| && IsLowerAscii(s[i]); assert u[i] == s[i]; }
      if HasUpper(s) { var i :| 0 <= i < |s| && IsUpperAscii(s[i]); assert u[i] == s[i]; }
      if HasDigit(s) { var i :| 0 <= i < |s| && IsDigitAscii(s[i]); assert u[i] == s[i]; }
      if HasSpecialAsWritten(s) { var i :| 0 <= i < |s| && IsSpecialAsWritten(s[i]); assert u[i] == s[i]; }
      ScoreMonotone(|s|, |u|, VarietyCount(s), VarietyCount(u));
    }
  }

  /** Fixing the special class never raises a score: the intended score is at most the one shown. */
  lemma IntendedNeverAbove(password: string)
    ensures EvaluateStrengthIntended(password) <= EvaluateStrength(password)
  {
    if HasSpecialIntended(password) {
      var i :| 0 <= i < |password| && IsSpecialIntended(password[i]);
      SpecialCharsMembers(password[i]);
    }
    if password != "" {
      ScoreMonotone(|password|, |password|, VarietyCountIntended(password), VarietyCount(password));
    }
  }

  /** A higher score never lands in a lower category; the categories change exactly at 40, 70 and 90. */
  lemma CategoryMonotone(s1: int, s2: int)
    requires s1 <= s2
    ensures 0 <= CategoryRank(StrengthCategory(s1)) <= CategoryRank(StrengthCategory(s2)) <= 3
    ensures CategoryRank(StrengthCategory(s2)) == (if s2 < 40 then 0 else if s2 < 70 then 1 else if s2 < 90 then 2 else 3)
  {
  }

  /**
   * As written, "a1" is credited with three classes (lower case, digit,
   * "special") and scores 50, "Moderate"; with the intended class it has two
   * and scores 35, "Weak".
   */
  lemma SpecialRangeOvercounts()
    ensures EvaluateStrength("a1") == 50 && StrengthCategory(EvaluateStrength("a1")) == "Moderate"
    ensures EvaluateStrengthIntended("a1") == 35 && StrengthCategory(EvaluateStrengthIntended("a1")) == "Weak"
  {
    var s := "a1";
    DigitOrUpperIsSpecial(s[1]);
    LowerIsNotSpecial(s[0]);
    assert HasLower(s) && HasDigit(s) && HasSpecialAsWritten(s);
    assert !HasUpper(s);
    assert !IsSpecialIntended(s[1]);
    assert !HasSpecialIntended(s);
    assert VarietyCount(s) == 3;
    assert VarietyCountIntended(s) == 2;
  }

  /** What `GeneratePassword` promises of a password it returns, apart from its length. */
  predicate GeneratedFrom(s: string, sel: Selection) {
    && (forall i :: 0 <= i < |s| ==> s[i] in Pool(sel))
    && (sel.lower ==> Draws(s, LowercaseChars))
    && (sel.upper ==> Draws(s, UppercaseChars))
    && (sel.digits ==> Draws(s, DigitChars))
    && (sel.special ==> Draws(s, SpecialChars))
  }

  /** A pool character of a class the score tests (with the intended special class) comes from a selected alphabet. */
  lemma PoolCharClass(sel: Selection, c: char)
    requires c in Pool(sel)
    ensures IsLowerAscii(c) ==> sel.lower
    ensures IsUpperAscii(c) ==> sel.upper
    ensures IsDigitAscii(c) ==> sel.digits
    ensures IsSpecialIntended(c) ==> sel.special
  {
    PoolMembers(sel, c);
    AlphabetMembers(c);
    if c in SpecialChars { SpecialCharsMembers(c); }
  }

  /**
   * With the intended special class the score credits exactly the classes a
   * generated password was drawn from: a password made of the pool of `sel`
   * and holding a character of each selected class has `SelectedCount(sel)`
   * classes.
   */
  lemma IntendedCountsSelectedClasses(s: string, sel: Selection)
    requires GeneratedFrom(s, sel)
    ensures HasLower(s) == sel.lower && HasUpper(s) == sel.upper
    ensures HasDigit(s) == sel.digits && HasSpecialIntended(s) == sel.special
    ensures VarietyCountIntended(s) == SelectedCount(sel)
  {
    if HasLower(s) {
      var i :| 0 <= i < |s| && IsLowerAscii(s[i]);
      PoolCharClass(sel, s[i]);
    }
    if HasUpper(s) {
      var i :| 0 <= i < |s| && IsUpperAscii(s[i]);
      PoolCharClass(sel, s[i]);
    }
    if HasDigit(s) {
      var i :| 0 <= i < |s| && IsDigitAscii(s[i]);
      PoolCharClass(sel, s[i]);
    }
    if HasSpecialIntended(s) {
      var i :| 0 <= i < |s| && IsSpecialIntended(s[i]);
      PoolCharClass(sel, s[i]);
    }
    if sel.lower {
      var i :| 0 <= i < |s| && s[i] in LowercaseChars;
      AlphabetMembers(s[i]);
    }
    if sel.upper {
      var i :| 0 <= i < |s| && s[i] in UppercaseChars;
      AlphabetMembers(s[i]);
    }
    if sel.digits {
      var i :| 0 <= i < |s| && s[i] in DigitChars;
      AlphabetMembers(s[i]);
    }
    if sel.special {
      var i :| 0 <= i < |s| && s[i] in SpecialChars;
      assert IsSpecialIntended(s[i]);
    }
  }

  /**
   * As written, the score of a generated password credits one class too many
   * whenever upper-case letters or digits were selected without specials.
   */
  lemma AsWrittenCreditsExtraClass(s: string, sel: Selection)
    requires GeneratedFrom(s, sel)
    requires sel.upper || sel.digits
    ensures VarietyCount(s) == SelectedCount(sel) + (if sel.special then 0 else 1)
  {
    IntendedCountsSelectedClasses(s, sel);
    if sel.upper {
      var i :| 0 <= i < |s| && s[i] in UppercaseChars;
      AlphabetMembers(s[i]);
      DigitOrUpperIsSpecial(s[i]);
    } else {
      var i :| 0 <= i < |s| && s[i] in DigitChars;
      AlphabetMembers(s[i]);
      DigitOrUpperIsSpecial(s[i]);
    }
    assert HasSpecialAsWritten(s);
  }
}
