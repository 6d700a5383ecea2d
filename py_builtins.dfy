/**
 * The few Python 2 string built-ins that `sizeType` relies on:
 * `str.strip`, `int()` on a string, a literal-pattern `re.search`,
 * and the exception it ends up raising.
 */
module PyBuiltins {

  /** The exceptions the model lets escape. */
  datatype PyError = UnboundLocalError(name: string)

  /** The characters `str.strip()` and `int()` treat as whitespace. */
  const Whitespace: set<char> := {' ', '\t', '\n', '\r', '\U{0B}', '\U{0C}'}

  const Signs: set<char> := {'+', '-'}

  const Digits: set<char> := {'0', '1', '2', '3', '4', '5', '6', '7', '8', '9'}

  /** Every character that can occur in a string `int()` accepts. */
  const IntChars: set<char> := Whitespace + Signs + Digits

  predicate AllDigits(d: string)
  {
    forall i | 0 <= i < |d| :: d[i] in Digits
  }

  /** The value of a string of decimal digits, most significant first. */
  function DigitsValue(d: string): (v: nat)
    requires AllDigits(d)
    decreases |d|
  {
    if d == [] then 0
    else DigitsValue(d[..|d| - 1]) * 10 + ((d[|d| - 1] as int) - ('0' as int))
  }

  /** `s.lstrip(cs)`: drops leading characters that belong to `cs`. */
  function StripLeft(s: string, cs: set<char>): string
    decreases |s|
  {
    if |s| > 0 && s[0] in cs then StripLeft(s[1..], cs) else s
  }

  /** `s.rstrip(cs)`: drops trailing characters that belong to `cs`. */
  function StripRight(s: string, cs: set<char>): string
    decreases |s|
  {
    if |s| > 0 && s[|s| - 1] in cs then StripRight(s[..|s| - 1], cs) else s
  }

  /** `s.strip(cs)`; with `cs == Whitespace` it is `s.strip()`. */
  function Strip(s: string, cs: set<char>): string
  {
    StripRight(StripLeft(s, cs), cs)
  }

  /**
   * The digits `int(t)` reads: `t` stripped of whitespace, less a leading sign
   * and any whitespace after that sign.
   */
  function Magnitude(t: string): string
  {
    var u := Strip(t, Whitespace);
    if |u| > 0 && u[0] in Signs then StripLeft(u[1..], Whitespace) else u
  }

  /** `int(t)` succeeds: optional whitespace, an optional sign and whitespace, decimal digits, optional whitespace. */
  predicate IsPyInt(t: string)
  {
    var d := Magnitude(t);
    |d| > 0 && AllDigits(d)
  }

  /** The value `int(t)` returns. */
  function PyInt(t: string): int
    requires IsPyInt(t)
  {
    var u := Strip(t, Whitespace);
    if u[0] == '-' then -(DigitsValue(Magnitude(t)) as int) else DigitsValue(Magnitude(t))
  }

  /** `re.search(k, s)` for a pattern `k` without metacharacters: `k` occurs in `s`. */
  predicate Contains(s: string, k: string)
    decreases |s|
  {
    |k| <= |s| && (s[..|k|] == k || Contains(s[1..], k))
  }

  /** `lstrip` keeps a suffix, drops only characters of `cs`, and stops at one outside `cs`. */
  lemma {:induction false} StripLeftShape(s: string, cs: set<char>)
    ensures var r := StripLeft(s, cs);
      |r| <= |s| && r == s[|s| - |r|..] &&
      (forall i | 0 <= i < |s| - |r| :: s[i] in cs) &&
      (r == [] || r[0] !in cs)
    decreases |s|
  {
    if |s| > 0 && s[0] in cs {
      StripLeftShape(s[1..], cs);
    }
  }

  /** `rstrip` keeps a prefix, drops only characters of `cs`, and stops at one outside `cs`. */
  lemma {:induction false} StripRightShape(s: string, cs: set<char>)
    ensures var r := StripRight(s, cs);
      |r| <= |s| && r == s[..|r|] &&
      (forall i | |r| <= i < |s| :: s[i] in cs) &&
      (r == [] || r[|r| - 1] !in cs)
    decreases |s|
  {
    if |s| > 0 && s[|s| - 1] in cs {
      StripRightShape(s[..|s| - 1], cs);
    }
  }

  lemma StripLeftKeepsOrDrops(s: string, cs: set<char>)
    ensures forall i | 0 <= i < |s| :: s[i] in cs || s[i] in StripLeft(s, cs)
  {
    var l := StripLeft(s, cs);
    StripLeftShape(s, cs);
    forall i | |s| - |l| <= i < |s| ensures s[i] in l {
      assert s[i] == l[i - (|s| - |l|)];
    }
  }

  lemma StripRightKeepsOrDrops(s: string, cs: set<char>)
    ensures forall i | 0 <= i < |s| :: s[i] in cs || s[i] in StripRight(s, cs)
  {
    var r := StripRight(s, cs);
    StripRightShape(s, cs);
    forall i | 0 <= i < |r| ensures s[i] in r {
      assert s[i] == r[i];
    }
  }

  /** Every character of `s` is either stripped (in `cs`) or kept. */
  lemma StripKeepsOrDrops(s: string, cs: set<char>)
    ensures forall i | 0 <= i < |s| :: s[i] in cs || s[i] in Strip(s, cs)
  {
    var l := StripLeft(s, cs);
    StripLeftKeepsOrDrops(s, cs);
    StripRightKeepsOrDrops(l, cs);
    forall i | 0 <= i < |s| && s[i] !in cs ensures s[i] in Strip(s, cs) {
      var j :| 0 <= j < |l| && l[j] == s[i];
      assert l[j] in cs || l[j] in Strip(s, cs);
    }
  }

  /** Whatever survives stripping was in `s`. */
  lemma StripSubset(s: string, cs: set<char>)
    ensures forall c | c in Strip(s, cs) :: c in s
  {
    var l := StripLeft(s, cs);
    var r := StripRight(l, cs);
    StripLeftShape(s, cs);
    StripRightShape(l, cs);
    forall c | c in r ensures c in s {
      var j :| 0 <= j < |r| && r[j] == c;
      assert l[j] == c;
      assert s[|s| - |l| + j] == c;
    }
  }

  /** A string `int()` accepts consists of whitespace, signs and digits, and has a digit. */
  lemma PyIntChars(t: string)
    requires IsPyInt(t)
    ensures forall i | 0 <= i < |t| :: t[i] in IntChars
    ensures exists i | 0 <= i < |t| :: t[i] in Digits
  {
    var u, d := Strip(t, Whitespace), Magnitude(t);
    StripKeepsOrDrops(t, Whitespace);
    StripSubset(t, Whitespace);
    var k := 0;
    if u[0] in Signs {
      StripLeftKeepsOrDrops(u[1..], Whitespace);
      StripLeftShape(u[1..], Whitespace);
      k := |u| - |d|;
      assert u[k] == u[1..][k - 1] == d[0];
    }
    forall c | c in u ensures c in IntChars {
      var j :| 0 <= j < |u| && u[j] == c;
      if u[0] in Signs && j > 0 {
        assert u[1..][j - 1] == c;
      }
    }
    assert u[k] == d[0] && d[0] in Digits && d[0] in u;
  }

  /** Python 2 `int()` skips whitespace after the sign: `int('- 3') == -3`. */
  lemma SpaceAfterSign()
    ensures IsPyInt("- 3") && PyInt("- 3") == -3
  {
    var t := "- 3";
    StripNothing(t, Whitespace);
    var rest := t[1..];
    assert rest == " 3" && rest[1..] == "3";
    assert StripLeft(rest, Whitespace) == StripLeft("3", Whitespace) == "3";
    assert Magnitude(t) == "3";
    assert "3"[..0] == [];
  }

  /** Stripping a string that neither starts nor ends with a character of `cs` changes nothing. */
  lemma StripNothing(s: string, cs: set<char>)
    requires s == [] || (s[0] !in cs && s[|s| - 1] !in cs)
    ensures Strip(s, cs) == s
  {
  }

  /** `rstrip` of `t + k` removes exactly `k` when `k` is made of `cs` and `t` ends outside `cs`. */
  lemma {:induction false} StripRightSuffix(t: string, k: string, cs: set<char>)
    requires forall i | 0 <= i < |k| :: k[i] in cs
    requires t == [] || t[|t| - 1] !in cs
    ensures StripRight(t + k, cs) == t
    decreases |k|
  {
    if k == [] {
      assert t + k == t;
    } else {
      var s := t + k;
      assert s[..|s| - 1] == t + k[..|k| - 1];
      StripRightSuffix(t, k[..|k| - 1], cs);
    }
  }

  /** An occurrence of `k` in `s` places each character of `k` in `s`. */
  lemma {:induction false} ContainsChars(s: string, k: string, j: nat)
    requires Contains(s, k) && j < |k|
    ensures exists i | 0 <= i < |s| :: s[i] == k[j]
    decreases |s|
  {
    if s[..|k|] == k {
      assert s[j] == k[j];
    } else {
      ContainsChars(s[1..], k, j);
      var i :| 0 <= i < |s[1..]| && s[1..][i] == k[j];
      assert s[i + 1] == k[j];
    }
  }

  /** `k` occurs in `t + k`. */
  lemma {:induction false} ContainsSuffix(t: string, k: string)
    ensures Contains(t + k, k)
    decreases |t|
  {
    if t == [] {
      assert (t + k)[..|k|] == k;
    } else {
      assert (t + k)[1..] == t[1..] + k;
      ContainsSuffix(t[1..], k);
    }
  }
}
