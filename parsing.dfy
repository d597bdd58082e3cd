/** The list options of the meter: `-r 1,2,3` and `-a 5,7` arrive from argparse as a list of
    strings (`nargs='*'`); `Measurement.__init__` keeps only the first string, splits it on
    commas with `str.split(',')` and converts every field with `int(...)`. */
module ArgParsing {

  datatype Option<T> = None | Some(value: T)

  /** Why `Measurement.__init__` raises while parsing a list option. */
  datatype ParseError =
    | NoItem                        // the option was given with no value: `[0]` raises IndexError
    | InvalidLiteral(field: string) // `int(field)` raises ValueError

  datatype Result<T> = Success(value: T) | Failure(error: ParseError)

  const Comma: char := ','

  // ---------------------------------------------------------------- str.split

  /** `s.split(sep)`: the fields between separators, always at least one. */
  function Split(s: string, sep: char): (r: seq<string>)
    ensures |r| >= 1
    ensures forall i :: 0 <= i < |r| ==> sep !in r[i]
  {
    if s == [] then [[]]
    else
      assert s == [s[0]] + s[1..];
      var rest := Split(s[1..], sep);
      if s[0] == sep then [[]] + rest
      else [[s[0]] + rest[0]] + rest[1..]
  }

  /** One field more than there are separators. */
  lemma {:induction false} SplitCount(s: string, sep: char)
    ensures |Split(s, sep)| == multiset(s)[sep] + 1
  {
    if s != [] {
      SplitCount(s[1..], sep);
      assert s == [s[0]] + s[1..];
    }
  }

  /** `sep.join(fields)`, the inverse of `Split`. */
  function Join(fields: seq<string>, sep: char): string
    requires |fields| >= 1
  {
    if |fields| == 1 then fields[0] else fields[0] + [sep] + Join(fields[1..], sep)
  }

  /** Splitting loses nothing: joining the fields back gives the original string. */
  lemma {:induction false} JoinSplit(s: string, sep: char)
    ensures Join(Split(s, sep), sep) == s
  {
    if s != [] {
      var rest := Split(s[1..], sep);
      JoinSplit(s[1..], sep);
      assert s == [s[0]] + s[1..];
      if s[0] == sep {
        assert Split(s, sep) == [[]] + rest;
      } else {
        var fields := [[s[0]] + rest[0]] + rest[1..];
        assert Split(s, sep) == fields;
        if |rest| > 1 {
          assert fields[1..] == rest[1..];
          assert Join(fields, sep) == [s[0]] + (rest[0] + [sep] + Join(rest[1..], sep));
        } else {
          assert Join(fields, sep) == [s[0]] + rest[0];
        }
      }
    }
  }

  /** Splitting `f + tail` where `f` holds no separator extends the first field of `tail`. */
  lemma {:induction false} SplitPrefix(f: string, tail: string, sep: char)
    requires sep !in f
    ensures Split(f + tail, sep) == [f + Split(tail, sep)[0]] + Split(tail, sep)[1..]
  {
    if f != [] {
      assert (f + tail)[1..] == f[1..] + tail;
      assert (f + tail)[0] == f[0];
      SplitPrefix(f[1..], tail, sep);
      assert [f[0]] + (f[1..] + Split(tail, sep)[0]) == f + Split(tail, sep)[0];
    } else {
      var r := Split(tail, sep);
      assert f + tail == tail && f + r[0] == r[0];
      assert r == [r[0]] + r[1..];
    }
  }

  /** Fields free of the separator come back unchanged from a join followed by a split. */
  lemma {:induction false} SplitJoin(fields: seq<string>, sep: char)
    requires |fields| >= 1
    requires forall i :: 0 <= i < |fields| ==> sep !in fields[i]
    ensures Split(Join(fields, sep), sep) == fields
  {
    if |fields| == 1 {
      SplitPrefix(fields[0], [], sep);
      assert fields[0] + [] == fields[0];
    } else {
      var tail := Join(fields[1..], sep);
      SplitJoin(fields[1..], sep);
      SplitPrefix(fields[0], [sep] + tail, sep);
      assert fields[0] + [sep] + tail == fields[0] + ([sep] + tail);
      assert ([sep] + tail)[1..] == tail;
      assert Split([sep] + tail, sep) == [[]] + fields[1..];
      assert fields[0] + [] == fields[0];
      assert fields == [fields[0]] + fields[1..];
    }
  }

  // ---------------------------------------------------------------- int(str)

  /** The ASCII white space `int()` skips around a literal. */
  predicate IsSpace(c: char) {
    c == ' ' || '\t' <= c <= '\r'
  }

  predicate IsDigit(c: char) {
    '0' <= c <= '9'
  }

  predicate AllDigits(s: string) {
    forall i :: 0 <= i < |s| ==> IsDigit(s[i])
  }

  /** Drops leading white space. */
  function TrimStart(s: string): (r: string)
    ensures |r| <= |s| && r == s[|s| - |r|..]
    ensures forall i :: 0 <= i < |s| - |r| ==> IsSpace(s[i])
    ensures r == [] || !IsSpace(r[0])
  {
    if s != [] && IsSpace(s[0]) then TrimStart(s[1..]) else s
  }

  /** Drops trailing white space. */
  function TrimEnd(s: string): (r: string)
    ensures |r| <= |s| && r == s[..|r|]
    ensures forall i :: |r| <= i < |s| ==> IsSpace(s[i])
    ensures r == [] || !IsSpace(r[|r| - 1])
  {
    if s != [] && IsSpace(s[|s| - 1]) then TrimEnd(s[..|s| - 1]) else s
  }

  /** Drops the ASCII white space `int()` skips around a literal. */
  function Strip(s: string): string {
    TrimEnd(TrimStart(s))
  }

  function DigitValue(c: char): nat
    requires IsDigit(c)
  {
    (c as int) - ('0' as int)
  }

  /** The value of a string of decimal digits, most significant first. */
  function DigitsValue(s: string): nat
    requires AllDigits(s)
  {
    if s == [] then 0 else 10 * DigitsValue(s[..|s| - 1]) + DigitValue(s[|s| - 1])
  }

  /** `int(field)` for base 10: optional sign, then one or more digits, surrounded by optional
      white space; `None` where Python raises `ValueError`. */
  function ParseInt(field: string): (r: Option<int>)
  {
    ParseLiteral(Strip(field))
  }

  /** The literal `t` that `int` reads once white space is stripped. */
  function ParseLiteral(t: string): (r: Option<int>)
  {
    if |t| >= 2 && (t[0] == '-' || t[0] == '+') && AllDigits(t[1..]) then
      var magnitude: int := DigitsValue(t[1..]);
      Some(if t[0] == '-' then -magnitude else magnitude)
    else if |t| >= 1 && AllDigits(t) then
      Some(DigitsValue(t))
    else
      None
  }

  /** The decimal text of a natural number (`str(n)`). */
  function ShowNat(n: nat): (s: string)
    ensures |s| >= 1 && AllDigits(s)
  {
    if n < 10 then [('0' as int + n) as char]
    else ShowNat(n / 10) + [('0' as int + n % 10) as char]
  }

  /** The decimal text of an integer (`str(n)`). */
  function ShowInt(n: int): (s: string)
    ensures |s| >= 1 && Comma !in s
    ensures !IsSpace(s[0]) && !IsSpace(s[|s| - 1])
  {
    if n < 0 then ['-'] + ShowNat(-n) else ShowNat(n)
  }

  lemma {:induction false} DigitsOfShowNat(n: nat)
    ensures DigitsValue(ShowNat(n)) == n
  {
    if n >= 10 {
      var s := ShowNat(n);
      DigitsOfShowNat(n / 10);
      assert s[..|s| - 1] == ShowNat(n / 10);
    }
  }

  /** `int(str(n)) == n`. */
  lemma ParseShowInt(n: int)
    ensures ParseInt(ShowInt(n)) == Some(n)
  {
    var s := ShowInt(n);
    assert TrimStart(s) == s;
    assert TrimEnd(s) == s;
    if n < 0 {
      var digits := ShowNat(-n);
      assert s[0] == '-' && s[1..] == digits;
      DigitsOfShowNat(-n);
      assert |s| >= 2 && AllDigits(s[1..]) && DigitsValue(s[1..]) == -n;
    } else {
      assert s == ShowNat(n) && IsDigit(s[0]);
      DigitsOfShowNat(n);
      assert ParseLiteral(s) == Some(n);
    }
  }

  // ---------------------------------------------------------------- the list comprehension

  /** `[convert(f) for f in fields]`: every field converted, in order, or the error of the
      first field `convert` rejects. */
  function ConvertAll(fields: seq<string>, convert: string -> Option<int>): (r: Result<seq<int>>)
    ensures r.Success? <==> forall i :: 0 <= i < |fields| ==> convert(fields[i]).Some?
    ensures r.Success? ==> |r.value| == |fields|
    ensures r.Success? ==> forall i :: 0 <= i < |fields| ==> convert(fields[i]) == Some(r.value[i])
    ensures r.Failure? ==> exists i :: 0 <= i < |fields| && convert(fields[i]).None?
                                     && r.error == InvalidLiteral(fields[i])
                                     && forall j :: 0 <= j < i ==> convert(fields[j]).Some?
  {
    if fields == [] then Success([])
    else
      match convert(fields[0])
      case None => Failure(InvalidLiteral(fields[0]))
      case Some(v) =>
        match ConvertAll(fields[1..], convert)
        case Failure(e) =>
          FirstInvalidShift(fields, convert, e);
          Failure(e)
        case Success(vs) => Success([v] + vs)
  }

  /** A failure found in `fields[1..]` is one found in `fields` when `fields[0]` converts. */
  lemma FirstInvalidShift(fields: seq<string>, convert: string -> Option<int>, e: ParseError)
    requires |fields| >= 1 && convert(fields[0]).Some?
    requires exists i :: 0 <= i < |fields| - 1 && convert(fields[1..][i]).None?
                         && e == InvalidLiteral(fields[1..][i])
                         && forall j :: 0 <= j < i ==> convert(fields[1..][j]).Some?
    ensures exists i :: 0 <= i < |fields| && convert(fields[i]).None? && e == InvalidLiteral(fields[i])
                        && forall j :: 0 <= j < i ==> convert(fields[j]).Some?
  {
    var i :| 0 <= i < |fields| - 1 && convert(fields[1..][i]).None?
             && e == InvalidLiteral(fields[1..][i])
             && forall j :: 0 <= j < i ==> convert(fields[1..][j]).Some?;
    assert fields[i + 1] == fields[1..][i];
    forall j | 0 <= j < i + 1 ensures convert(fields[j]).Some? {
      if j > 0 { assert fields[j] == fields[1..][j - 1]; }
    }
  }

  /** The list parsing of `Measurement.__init__`: only the first item of the option's list is
      used, split on commas, and every field converted with `int`. `ParseListMeaning` states
      what it yields. */
  function ParseList(items: seq<string>): (r: Result<seq<int>>)
    ensures items == [] <==> r == Failure(NoItem)
    ensures r.Success? ==> |r.value| >= 1
  {
    if items == [] then Failure(NoItem)
    else ConvertAll(Split(items[0], Comma), ParseInt)
  }

  /** An empty option list raises; otherwise the parse succeeds exactly when every comma field
      of the first item is an integer literal, and then yields one int per field in order (one
      more than there are commas). A failure names the first field that is no integer literal. */
  lemma ParseListMeaning(items: seq<string>)
    ensures var r := ParseList(items);
            && (items == [] <==> r == Failure(NoItem))
            && (r.Success? <==> items != [] && var fields := Split(items[0], Comma);
                                forall i :: 0 <= i < |fields| ==> ParseInt(fields[i]).Some?)
            && (r.Success? ==> |r.value| == |Split(items[0], Comma)| == multiset(items[0])[Comma] + 1)
            && (r.Success? ==> var fields := Split(items[0], Comma);
                               forall i :: 0 <= i < |fields| ==> ParseInt(fields[i]) == Some(r.value[i]))
            && (r.Failure? && items != [] ==> var fields := Split(items[0], Comma);
                  exists i :: 0 <= i < |fields| && ParseInt(fields[i]).None? && r.error == InvalidLiteral(fields[i])
                              && forall j :: 0 <= j < i ==> ParseInt(fields[j]).Some?)
  {
    if items != [] {
      SplitCount(items[0], Comma);
    }
  }

  function ShowAll(xs: seq<int>): (r: seq<string>)
    ensures |r| == |xs| && forall i :: 0 <= i < |xs| ==> r[i] == ShowInt(xs[i])
  {
    seq(|xs|, i requires 0 <= i < |xs| => ShowInt(xs[i]))
  }

  /** Round trip: the comma-separated text of any non-empty list parses back to that list,
      whatever items follow it on the command line. */
  lemma ParseListOfJoined(xs: seq<int>, rest: seq<string>)
    requires |xs| >= 1
    ensures ParseList([Join(ShowAll(xs), Comma)] + rest) == Success(xs)
  {
    var fields := ShowAll(xs);
    SplitJoin(fields, Comma);
    forall i | 0 <= i < |xs| ensures ParseInt(fields[i]) == Some(xs[i]) {
      ParseShowInt(xs[i]);
    }
    var r := ConvertAll(fields, ParseInt);
    assert r.Success?;
    assert r.value == xs;
  }
}
