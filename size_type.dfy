/**
 * `LitenBaseClass.sizeType`: turns the `--size` option ("10MB", "1", "512bytes")
 * into a byte count, the threshold below which the walk ignores files.
 *
 * The source loops over a dictionary of five unit keys; in each iteration it
 * either strips the key's characters and parses what is left (when the key
 * occurs in the string) or parses the whole string as megabytes (when it does
 * not), and a failed `int()` is swallowed. `Attempt` is one such iteration,
 * `None` when it raised. The loop itself is `Liten.LitenBaseClass.SizeType`.
 */
module SizeType {
  import opened Wrappers
  import opened PyBuiltins

  /** The keys of the `patterns` dictionary. */
  datatype Unit = Bytes | KB | MB | GB | TB

  const BytesPerMB: nat := 1048576

  function Key(u: Unit): string
  {
    match u
    case Bytes => "bytes"
    case KB => "KB"
    case MB => "MB"
    case GB => "GB"
    case TB => "TB"
  }

  /** The dictionary's value for each key, as a number of bytes. */
  function Multiplier(u: Unit): nat
  {
    match u
    case Bytes => 1
    case KB => 1024
    case MB => 1048576
    case GB => 1073741824
    case TB => 1099511627776
  }

  /** `fileSize.strip(key)` strips the key's characters, as a set, not the key as a word. */
  function KeyChars(u: Unit): (cs: set<char>)
    ensures cs !! IntChars
  {
    match u
    case Bytes => {'b', 'y', 't', 'e', 's'}
    case KB => {'K', 'B'}
    case MB => {'M', 'B'}
    case GB => {'G', 'B'}
    case TB => {'T', 'B'}
  }

  /** One iteration of the loop over `patterns`; `None` when its `int()` raised. */
  function Attempt(u: Unit, fileSize: string): Option<int>
  {
    if Contains(fileSize, Key(u)) then
      var t := Strip(fileSize, KeyChars(u));
      if IsPyInt(t) then Some(PyInt(t) * Multiplier(u)) else None
    else
      var t := Strip(fileSize, Whitespace);
      if IsPyInt(t) then Some(PyInt(t) * BytesPerMB) else None
  }

  /**
   * What `sizeType` returns: the value left in `byteValue` by the iterations
   * that did not raise, or `UnboundLocalError` when every iteration raised.
   * `Consistent` shows that iterations that succeed all agree, so neither the
   * order of the checks below nor the dictionary's order matters.
   */
  function Convert(fileSize: string): Result<int, PyError>
  {
    match FirstSuccess(Units, fileSize)
    case Some(v) => Ok(v)
    case None => Err(UnboundLocalError("byteValue"))
  }

  /** The five keys, in the order the dictionary literal lists them. */
  const Units: seq<Unit> := [Bytes, KB, MB, GB, TB]

  /** The value of the first iteration in `us` that does not raise. */
  function FirstSuccess(us: seq<Unit>, fileSize: string): Option<int>
    decreases |us|
  {
    if us == [] then None
    else if Attempt(us[0], fileSize).Some? then Attempt(us[0], fileSize)
    else FirstSuccess(us[1..], fileSize)
  }

  /** Each character of a key is one `strip(key)` removes. */
  lemma KeyCharsOfKey(u: Unit)
    ensures forall i | 0 <= i < |Key(u)| :: Key(u)[i] in KeyChars(u)
  {
  }

  /** The position, in each key, of a character that belongs to no other key. */
  function MarkerIndex(u: Unit): (j: nat)
    ensures j < |Key(u)|
  {
    if u == Bytes then 1 else 0
  }

  /** A string `int()` accepts contains no unit key. */
  lemma NumberHasNoKey(t: string, u: Unit)
    requires IsPyInt(t)
    ensures !Contains(t, Key(u))
  {
    if Contains(t, Key(u)) {
      PyIntChars(t);
      MarkerNotInt(u);
      ContainsChars(t, Key(u), MarkerIndex(u));
      assert false;
    }
  }

  lemma MarkerNotInt(u: Unit)
    ensures Key(u)[MarkerIndex(u)] !in IntChars
  {
  }

  /** The marker cannot occur in a number, nor be stripped along with another key. */
  lemma MarkerDistinct(u: Unit, v: Unit)
    requires u != v
    ensures Key(u)[MarkerIndex(u)] !in IntChars && Key(u)[MarkerIndex(u)] !in KeyChars(v)
  {
  }

  /** A successful iteration for `u` leaves no room in the string for characters outside `u`'s key or a number. */
  lemma AttemptChars(u: Unit, fileSize: string)
    requires Attempt(u, fileSize).Some?
    ensures forall i | 0 <= i < |fileSize| :: fileSize[i] in KeyChars(u) || fileSize[i] in IntChars
  {
    if Contains(fileSize, Key(u)) {
      var t := Strip(fileSize, KeyChars(u));
      StripKeepsOrDrops(fileSize, KeyChars(u));
      PyIntChars(t);
    } else {
      var t := Strip(fileSize, Whitespace);
      StripKeepsOrDrops(fileSize, Whitespace);
      PyIntChars(t);
    }
  }

  /** A successful iteration needs at least one digit in the string. */
  lemma AttemptNeedsDigit(u: Unit, fileSize: string)
    requires Attempt(u, fileSize).Some?
    ensures exists i | 0 <= i < |fileSize| :: fileSize[i] in Digits
  {
    var cs := if Contains(fileSize, Key(u)) then KeyChars(u) else Whitespace;
    var t := Strip(fileSize, cs);
    PyIntChars(t);
    StripSubset(fileSize, cs);
    var j :| 0 <= j < |t| && t[j] in Digits;
    assert t[j] in fileSize;
  }

  /** Any two iterations that do not raise store the same `byteValue`. */
  lemma Consistent(u: Unit, v: Unit, fileSize: string)
    requires Attempt(u, fileSize).Some? && Attempt(v, fileSize).Some?
    ensures Attempt(u, fileSize) == Attempt(v, fileSize)
  {
    if u != v {
      if Contains(fileSize, Key(u)) {
        NotBoth(u, v, fileSize);
      } else if Contains(fileSize, Key(v)) {
        NotBoth(v, u, fileSize);
      }
    }
  }

  /** When `u`'s key occurs in the string, no other key's iteration can succeed. */
  lemma NotBoth(u: Unit, v: Unit, fileSize: string)
    requires u != v && Contains(fileSize, Key(u))
    ensures Attempt(v, fileSize).None?
  {
    if Attempt(v, fileSize).Some? {
      MarkerDistinct(u, v);
      ContainsChars(fileSize, Key(u), MarkerIndex(u));
      AttemptChars(v, fileSize);
      assert false;
    }
  }

  /** Every unit is a key of the dictionary. */
  lemma UnitsComplete(u: Unit)
    ensures u in Units
  {
  }

  /** The first success in `us` agrees with any success of a unit in `us`. */
  lemma {:induction false} FirstSuccessAgrees(us: seq<Unit>, u: Unit, fileSize: string)
    requires u in us && Attempt(u, fileSize).Some?
    ensures FirstSuccess(us, fileSize) == Attempt(u, fileSize)
    decreases |us|
  {
    if Attempt(us[0], fileSize).Some? {
      Consistent(us[0], u, fileSize);
    } else {
      FirstSuccessAgrees(us[1..], u, fileSize);
    }
  }

  /** No success in `us` means no first success. */
  lemma {:induction false} FirstSuccessNone(us: seq<Unit>, fileSize: string)
    requires forall j | 0 <= j < |us| :: Attempt(us[j], fileSize).None?
    ensures FirstSuccess(us, fileSize).None?
    decreases |us|
  {
    if us != [] {
      FirstSuccessNone(us[1..], fileSize);
    }
  }

  /** `sizeType` returns what any iteration that does not raise computed. */
  lemma ConvertAgrees(u: Unit, fileSize: string)
    requires Attempt(u, fileSize).Some?
    ensures Convert(fileSize) == Ok(Attempt(u, fileSize).value)
  {
    UnitsComplete(u);
    FirstSuccessAgrees(Units, u, fileSize);
  }

  /** `sizeType` raises exactly when every iteration raises. */
  lemma ConvertFails(fileSize: string)
    ensures Convert(fileSize).Err? <==> forall u :: Attempt(u, fileSize).None?
  {
    if forall u :: Attempt(u, fileSize).None? {
      FirstSuccessNone(Units, fileSize);
    } else {
      var u :| Attempt(u, fileSize).Some?;
      ConvertAgrees(u, fileSize);
    }
  }

  /** An iteration whose key does not occur parses the whole string as megabytes. */
  lemma AttemptWithoutKey(u: Unit, fileSize: string)
    requires !Contains(fileSize, Key(u)) && IsPyInt(Strip(fileSize, Whitespace))
    ensures Attempt(u, fileSize) == Some(PyInt(Strip(fileSize, Whitespace)) * BytesPerMB)
  {
  }

  /** An iteration whose key occurs parses what stripping the key's characters leaves. */
  lemma AttemptWithKey(u: Unit, fileSize: string)
    requires Contains(fileSize, Key(u)) && IsPyInt(Strip(fileSize, KeyChars(u)))
    ensures Attempt(u, fileSize) == Some(PyInt(Strip(fileSize, KeyChars(u))) * Multiplier(u))
  {
  }

  /** An iteration order of the `patterns` dictionary: each of the five keys once. */
  predicate IsDictOrder(order: seq<Unit>)
  {
    |order| == 5 && forall u :: u in order
  }

  /** The list of units is itself an iteration order of `patterns`. */
  lemma UnitsAreDictOrder()
    ensures IsDictOrder(Units)
  {
    forall u ensures u in Units {
      UnitsComplete(u);
    }
  }

  /** What each iteration of the loop over `order` computes, in loop order. */
  function Attempts(order: seq<Unit>, fileSize: string): (xs: seq<Option<int>>)
    ensures |xs| == |order|
    decreases |order|
  {
    if order == [] then []
    else Attempts(order[..|order| - 1], fileSize) + [Attempt(order[|order| - 1], fileSize)]
  }

  /** The `j`th iteration's result is that key's `Attempt`. */
  lemma {:induction false} AttemptsAt(order: seq<Unit>, j: nat, fileSize: string)
    requires j < |order|
    ensures Attempts(order, fileSize)[j] == Attempt(order[j], fileSize)
    decreases |order|
  {
    var init := order[..|order| - 1];
    if j < |init| {
      AttemptsAt(init, j, fileSize);
      assert init[j] == order[j];
    }
  }

  /** One more iteration appends its own result. */
  lemma AttemptsSnoc(order: seq<Unit>, i: nat, fileSize: string)
    requires i < |order|
    ensures Attempts(order[..i + 1], fileSize) == Attempts(order[..i], fileSize) + [Attempt(order[i], fileSize)]
  {
    assert order[..i + 1][..i] == order[..i];
  }

  /** What `byteValue` holds after iterations with results `xs`: the last value that was not a raise. */
  function LastSome(xs: seq<Option<int>>): Option<int>
    decreases |xs|
  {
    if xs == [] then None
    else if xs[|xs| - 1].Some? then xs[|xs| - 1]
    else LastSome(xs[..|xs| - 1])
  }

  lemma {:induction false} LastSomeFrom(xs: seq<Option<int>>)
    ensures LastSome(xs).None? ==> forall j | 0 <= j < |xs| :: xs[j].None?
    ensures LastSome(xs).Some? ==> exists j | 0 <= j < |xs| :: xs[j] == LastSome(xs)
    decreases |xs|
  {
    if xs != [] {
      var init := xs[..|xs| - 1];
      LastSomeFrom(init);
      if xs[|xs| - 1].None? {
        forall j | 0 <= j < |init| ensures xs[j] == init[j] { }
      }
    }
  }

  /** The loop's result does not depend on the order the dictionary yields its keys in: it is always `Convert`. */
  lemma OrderIndependent(order: seq<Unit>, fileSize: string)
    requires IsDictOrder(order)
    ensures LastSome(Attempts(order, fileSize)).None? <==> Convert(fileSize).Err?
    ensures LastSome(Attempts(order, fileSize)).Some? ==> Convert(fileSize) == Ok(LastSome(Attempts(order, fileSize)).value)
  {
    var xs := Attempts(order, fileSize);
    LastSomeFrom(xs);
    if LastSome(xs).None? {
      forall u ensures Attempt(u, fileSize).None? {
        assert u in order;
        var j :| 0 <= j < |order| && order[j] == u;
        AttemptsAt(order, j, fileSize);
      }
      ConvertFails(fileSize);
    } else {
      ConvertFails(fileSize);
      var j :| 0 <= j < |xs| && xs[j] == LastSome(xs);
      AttemptsAt(order, j, fileSize);
      ConvertAgrees(order[j], fileSize);
    }
  }

  /** A plain integer string, with no unit, is a number of megabytes. */
  lemma PlainIntegerIsMegabytes(t: string)
    requires IsPyInt(t)
    ensures Convert(t) == Ok(PyInt(t) * BytesPerMB)
  {
    NumberHasNoKey(t, Bytes);
    StripTwice(t);
    AttemptWithoutKey(Bytes, t);
    ConvertAgrees(Bytes, t);
  }

  /** `int()` strips whitespace itself, so a second strip changes nothing. */
  lemma StripTwice(t: string)
    requires IsPyInt(t)
    ensures IsPyInt(Strip(t, Whitespace)) && PyInt(Strip(t, Whitespace)) == PyInt(t)
  {
    var l, u := StripLeft(t, Whitespace), Strip(t, Whitespace);
    assert |u| > 0 by {
      assert |Magnitude(t)| > 0;
    }
    StripLeftShape(t, Whitespace);
    StripRightShape(l, Whitespace);
    assert u[0] == l[0];
    StripNothing(u, Whitespace);
    assert Magnitude(u) == Magnitude(t);
  }

  /** Stripping a key's characters from a number followed by that key leaves the number. */
  lemma StripKeySuffix(t: string, u: Unit)
    requires IsPyInt(t)
    ensures Strip(t + Key(u), KeyChars(u)) == t
  {
    var s := t + Key(u);
    PyIntChars(t);
    assert t[0] in IntChars && t[|t| - 1] in IntChars;
    assert s[0] == t[0];
    assert StripLeft(s, KeyChars(u)) == s;
    KeyCharsOfKey(u);
    StripRightSuffix(t, Key(u), KeyChars(u));
  }

  /** An integer followed by a unit key is that many units. */
  lemma SuffixedIntegerIsUnits(t: string, u: Unit)
    requires IsPyInt(t)
    ensures Convert(t + Key(u)) == Ok(PyInt(t) * Multiplier(u))
  {
    ContainsSuffix(t, Key(u));
    StripKeySuffix(t, u);
    AttemptWithKey(u, t + Key(u));
    ConvertAgrees(u, t + Key(u));
  }

  /** A string with a character foreign to every unit key and to numbers is refused. */
  lemma ForeignCharRejected(fileSize: string, i: nat)
    requires i < |fileSize| && fileSize[i] !in IntChars
    requires forall u :: fileSize[i] !in KeyChars(u)
    ensures Convert(fileSize) == Err(UnboundLocalError("byteValue"))
  {
    forall u ensures Attempt(u, fileSize).None? {
      if Attempt(u, fileSize).Some? {
        AttemptChars(u, fileSize);
        assert false;
      }
    }
    ConvertFails(fileSize);
  }

  /** A string without a digit is refused. */
  lemma NoDigitRejected(fileSize: string)
    requires forall i | 0 <= i < |fileSize| :: fileSize[i] !in Digits
    ensures Convert(fileSize) == Err(UnboundLocalError("byteValue"))
  {
    forall u ensures Attempt(u, fileSize).None? {
      if Attempt(u, fileSize).Some? {
        AttemptNeedsDigit(u, fileSize);
        assert false;
      }
    }
    ConvertFails(fileSize);
  }

  /** The digit string "1" is worth 1. */
  lemma DigitOne()
    ensures AllDigits("1") && DigitsValue("1") == 1
  {
    var one := "1";
    assert AllDigits(one);
    assert one[..0] == [];
  }

  /** `int("1")` is 1. */
  lemma OneIsPyInt()
    ensures IsPyInt("1") && PyInt("1") == 1
  {
    var one := "1";
    StripNothing(one, Whitespace);
    DigitOne();
    assert one[0] !in Signs;
  }

  /** `-s 1` means one megabyte, as the module documentation says. */
  lemma DocumentedPlainForm()
    ensures Convert("1") == Ok(1048576)
  {
    OneIsPyInt();
    PlainIntegerIsMegabytes("1");
  }

  /** `-s 1bytes`, `-s 1KB`, `-s 1MB`, `-s 1GB` and `-s 1TB` mean one of that unit. */
  lemma DocumentedUnitForms(u: Unit)
    ensures Convert("1" + Key(u)) == Ok(Multiplier(u))
    ensures Convert("1MB") == Convert("1")
  {
    OneIsPyInt();
    SuffixedIntegerIsUnits("1", u);
    SuffixedIntegerIsUnits("1", MB);
    assert "1" + Key(MB) == "1MB";
    DocumentedPlainForm();
  }

  /** `-s MB3` is three megabytes: `strip('MB')` also removes the key's letters in front. */
  lemma KeyBeforeNumber()
    ensures Convert("MB3") == Ok(3 * BytesPerMB)
  {
    var s := "MB3";
    assert Contains(s, Key(MB));
    assert StripLeft(s, KeyChars(MB)) == "3" by {
      assert s[1..] == "B3" && s[1..][1..] == "3";
    }
    assert Strip(s, KeyChars(MB)) == "3";
    StripNothing("3", Whitespace);
    assert "3"[1..] == [] && "3"[..0] == [];
    assert IsPyInt("3") && PyInt("3") == 3;
    ConvertAgrees(MB, s);
  }

  /** `"sbytes1"` holds `bytes`, and `strip('bytes')` leaves `"1"`. */
  lemma StrayLettersStripped()
    ensures Contains("sbytes1", Key(Bytes)) && Strip("sbytes1", KeyChars(Bytes)) == "1"
  {
    var s := "sbytes1";
    assert s[1..][..5] == "bytes";
    assert StripLeft(s, KeyChars(Bytes)) == "1" by {
      assert s[1..] == "bytes1" && s[2..] == "ytes1" && s[3..] == "tes1";
      assert s[4..] == "es1" && s[5..] == "s1" && s[6..] == "1";
    }
  }

  /** `-s sbytes1` is one byte: a stray letter of `bytes` in front is stripped too. */
  lemma StrayKeyLetter()
    ensures Convert("sbytes1") == Ok(1)
  {
    StrayLettersStripped();
    OneIsPyInt();
    ConvertAgrees(Bytes, "sbytes1");
  }

  /** `-s " 2MB "` raises: the outer spaces keep `strip('MB')` from reaching the letters. */
  lemma SpacedUnitRejected()
    ensures Convert(" 2MB ") == Err(UnboundLocalError("byteValue"))
  {
    var s, core := " 2MB ", "2MB";
    assert Strip(s, Whitespace) == core by {
      assert StripLeft(s, Whitespace) == s[1..];
      assert s[1..][..|s[1..]| - 1] == core;
      StripNothing(core, Whitespace);
    }
    assert !IsPyInt(s) && !IsPyInt(core) by {
      StripNothing(core, Whitespace);
      assert core[0] !in Signs && core[1] !in Digits;
    }
    forall u ensures Attempt(u, s).None? {
      StripNothing(s, KeyChars(u));
    }
    ConvertFails(s);
  }
}
