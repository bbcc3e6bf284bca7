/** The string operations the modelled code takes from Go's strings, strconv and fmt. */
module Text {
  import opened Arith

  datatype Option<+T> = None | Some(value: T)

  /** strings.Index for one byte: -1 when absent. */
  function IndexOf(s: string, c: char): (i: int)
    ensures -1 <= i < |s|
    ensures i == -1 <==> c !in s
    ensures i >= 0 ==> s[i] == c && c !in s[..i]
  {
    if s == [] then -1
    else if s[0] == c then 0
    else
      var r := IndexOf(s[1..], c);
      assert s == [s[0]] + s[1..];
      if r == -1 then -1 else
        assert s[..r + 1] == [s[0]] + s[1..][..r];
        r + 1
  }

  /** strings.LastIndex for one byte: -1 when absent. */
  function LastIndexOf(s: string, c: char): (i: int)
    ensures -1 <= i < |s|
    ensures i == -1 <==> c !in s
    ensures i >= 0 ==> s[i] == c && c !in s[i + 1..]
  {
    if s == [] then -1
    else if s[|s| - 1] == c then |s| - 1
    else
      var r := LastIndexOf(s[..|s| - 1], c);
      assert s == s[..|s| - 1] + [s[|s| - 1]];
      if r == -1 then -1 else
        assert s[r + 1..] == s[..|s| - 1][r + 1..] + [s[|s| - 1]];
        r
  }

  lemma {:induction false} IndexOfPrefixed(a: string, b: string, c: char)
    requires c !in a
    ensures IndexOf(a + [c] + b, c) == |a|
  {
    var s := a + [c] + b;
    if a != [] {
      IndexOfPrefixed(a[1..], b, c);
      assert s[1..] == a[1..] + [c] + b;
    }
  }

  lemma {:induction false} LastIndexOfTagged(a: string, b: string, c: char)
    requires c !in b
    ensures LastIndexOf(a + [c] + b, c) == |a|
    decreases b
  {
    var s := a + [c] + b;
    if b != [] {
      LastIndexOfTagged(a, b[..|b| - 1], c);
      assert s[..|s| - 1] == a + [c] + b[..|b| - 1];
    }
  }

  /** GetDeviceMac: everything before the last colon, or the whole id. */
  function DeviceMac(deviceID: string): string {
    var i := LastIndexOf(deviceID, ':');
    if i == -1 then deviceID else deviceID[..i]
  }

  /** The mac of a tagged device id is the untagged id. */
  lemma MacOfTagged(did: string, tag: string)
    requires ':' !in tag
    ensures DeviceMac(did + ":" + tag) == did
  {
    LastIndexOfTagged(did, tag, ':');
    assert (did + ":" + tag)[..|did|] == did;
  }

  /** An untagged id is its own mac. */
  lemma MacOfUntagged(did: string)
    ensures DeviceMac(did) == did <==> ':' !in did
  {
    var i := LastIndexOf(did, ':');
    if i >= 0 {
      assert |did[..i]| < |did|;
    }
  }

  /** strings.Split on a one-byte separator. */
  function Split(s: string, c: char): (parts: seq<string>)
    ensures |parts| >= 1
    ensures |parts| == 1 <==> c !in s
  {
    if s == [] then [""]
    else
      var rest := Split(s[1..], c);
      if s[0] == c then [""] + rest else [[s[0]] + rest[0]] + rest[1..]
  }

  /** strings.Join with a one-byte separator. */
  function Join(parts: seq<string>, c: char): string {
    if parts == [] then ""
    else if |parts| == 1 then parts[0]
    else parts[0] + [c] + Join(parts[1..], c)
  }

  lemma JoinCons(head: string, rest: seq<string>, c: char)
    ensures Join([head] + rest, c) == if rest == [] then head else head + [c] + Join(rest, c)
  {
    assert ([head] + rest)[1..] == rest;
  }

  /** A character before the first part is a character before the whole. */
  lemma JoinExtended(x: char, first: string, rest: seq<string>, c: char)
    ensures Join([[x] + first] + rest, c) == [x] + Join([first] + rest, c)
  {
    JoinCons([x] + first, rest, c);
    JoinCons(first, rest, c);
    if rest != [] {
      assert [x] + first + [c] + Join(rest, c) == [x] + (first + [c] + Join(rest, c));
    }
  }

  lemma {:induction false} JoinSplit(s: string, c: char)
    ensures Join(Split(s, c), c) == s
  {
    if s != [] {
      var rest := Split(s[1..], c);
      JoinSplit(s[1..], c);
      if s[0] == c {
        JoinCons("", rest, c);
      } else {
        assert rest == [rest[0]] + rest[1..];
        JoinExtended(s[0], rest[0], rest[1..], c);
      }
    }
  }

  /** A prefix without the separator splits off whole, and the rest joins back, separators included. */
  lemma {:induction false} SplitPrefix(a: string, b: string, c: char)
    requires c !in a
    ensures var parts := Split(a + [c] + b, c);
            |parts| > 1 && parts[0] == a && Join(parts[1..], c) == b
  {
    var s := a + [c] + b;
    if a == [] {
      assert s[1..] == b;
      JoinSplit(b, c);
    } else {
      SplitPrefix(a[1..], b, c);
      assert s[1..] == a[1..] + [c] + b;
    }
  }

  // ------------------------------------------------------------------
  // Decimal numbers
  // ------------------------------------------------------------------

  predicate IsDigit(c: char) {
    '0' <= c <= '9'
  }

  function Digit(d: nat): (c: char)
    requires d < 10
    ensures IsDigit(c)
  {
    ('0' as int + d) as char
  }

  function DigitValue(c: char): (d: nat)
    requires IsDigit(c)
    ensures d < 10
  {
    c as int - '0' as int
  }

  function Digits(n: nat): (s: string)
    ensures |s| >= 1 && forall i :: 0 <= i < |s| ==> IsDigit(s[i])
  {
    if n < 10 then [Digit(n)] else Digits(n / 10) + [Digit(n % 10)]
  }

  /** fmt's %d. */
  function Format(n: int): string {
    if n < 0 then "-" + Digits(-n) else Digits(n)
  }

  function Value(s: string): nat
    requires forall i :: 0 <= i < |s| ==> IsDigit(s[i])
  {
    if s == [] then 0 else Value(s[..|s| - 1]) * 10 + DigitValue(s[|s| - 1])
  }

  predicate AllDigits(s: string) {
    s != [] && forall i :: 0 <= i < |s| ==> IsDigit(s[i])
  }

  predicate IsInt64(n: int) {
    -0x8000_0000_0000_0000 <= n < 0x8000_0000_0000_0000
  }

  /** strconv.ParseInt(s, 10, 64): an optional sign, then one or more digits, in range. */
  function ParseInt(s: string): Option<int> {
    var signed := s != [] && (s[0] == '-' || s[0] == '+');
    var body := if signed then s[1..] else s;
    if !AllDigits(body) then None
    else
      var n: int := if signed && s[0] == '-' then 0 - Value(body) else Value(body);
      if IsInt64(n) then Some(n) else None
  }

  lemma {:induction false} ValueDigits(n: nat)
    ensures Value(Digits(n)) == n
  {
    if n >= 10 {
      ValueDigits(n / 10);
      assert Digits(n)[..|Digits(n)| - 1] == Digits(n / 10);
    } else {
      assert Digits(n)[..0] == [];
    }
  }

  lemma ParseFormat(n: int)
    requires IsInt64(n)
    ensures ParseInt(Format(n)) == Some(n)
  {
    var m := if n < 0 then -n else n;
    ValueDigits(m);
    ParseReads(Digits(m));
  }

  /** Digits are read with or without a sign, leading zeros and all, as long as the number is an int64. */
  lemma ParseReads(body: string)
    requires AllDigits(body)
    ensures var n: int := Value(body);
            && ParseInt(body) == ParseInt("+" + body) == (if IsInt64(n) then Some(n) else None)
            && ParseInt("-" + body) == (if IsInt64(-n) then Some(-n) else None)
    ensures AllDigits("0" + body) && Value("0" + body) == Value(body)
  {
    assert ("+" + body)[1..] == body && ("-" + body)[1..] == body;
    assert IsDigit(body[0]);
    LeadingZero(body);
  }

  lemma {:induction false} LeadingZero(s: string)
    requires forall i :: 0 <= i < |s| ==> IsDigit(s[i])
    ensures forall i :: 0 <= i < |"0" + s| ==> IsDigit(("0" + s)[i])
    ensures Value("0" + s) == Value(s)
    decreases |s|
  {
    if s != [] {
      var n := |s| - 1;
      LeadingZero(s[..n]);
      assert ("0" + s)[..n + 1] == "0" + s[..n];
    } else {
      assert "0"[..0] == [];
    }
  }

  /** And nothing else is read. */
  lemma ParseRejects(s: string)
    ensures ParseInt(s).Some? ==> AllDigits(s) || (s != [] && (s[0] == '-' || s[0] == '+') && AllDigits(s[1..]))
  {
  }

  lemma FormatHasNoColon(n: int)
    ensures ':' !in Format(n)
  {
    var d := Digits(if n < 0 then -n else n);
    assert ':' !in d;
  }

  lemma FormatInjective(m: int, n: int)
    requires IsInt64(m) && IsInt64(n) && Format(m) == Format(n)
    ensures m == n
  {
    ParseFormat(m);
    ParseFormat(n);
  }
}
