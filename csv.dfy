/** `TokenizeCsv` (configio.cpp:12-23): integers are read one by one from
    a string stream, each read skipping leading white space, and at most
    one ',' or ' ' is skipped after each, until a read fails. Also the
    writer on the other side, which joins the decimal forms of the numbers
    with commas (convertformat.py:139), and the round trip between the two.

    The reader works on positions in one string `s`, so that no proof has
    to reason about slices of slices. */
module Csv {
  import opened Wrappers

  const IntMin: int := -0x8000_0000
  const IntMax: int := 0x7FFF_FFFF

  /** The characters `std::isspace` accepts in the "C" locale. */
  predicate IsSpace(c: char) {
    c == ' ' || c == '\t' || c == '\n' || c == '\r' || c as int == 11 || c as int == 12
  }

  predicate IsDigit(c: char) {
    '0' <= c <= '9'
  }

  function DigitValue(c: char): int {
    c as int - '0' as int
  }

  /** The first position at or after `i` that is not white space. */
  function SpaceEnd(s: string, i: nat): (j: nat)
    requires i <= |s|
    ensures i <= j <= |s|
    decreases |s| - i
  {
    if i < |s| && IsSpace(s[i]) then SpaceEnd(s, i + 1) else i
  }

  /** The first position at or after `i` that is not a digit. */
  function DigitEnd(s: string, i: nat): (j: nat)
    requires i <= |s|
    ensures i <= j <= |s|
    decreases |s| - i
  {
    if i < |s| && IsDigit(s[i]) then DigitEnd(s, i + 1) else i
  }

  /** The value of a string of decimal digits. */
  function DigitsValue(ds: string): int
    decreases |ds|
  {
    if ds == [] then 0 else DigitsValue(ds[..|ds| - 1]) * 10 + DigitValue(ds[|ds| - 1])
  }

  /** The digits starting at position `q`: their value and the position
      after them, or None when there is no digit at `q`. */
  function Magnitude(s: string, q: nat): (r: Option<(int, nat)>)
    requires q <= |s|
    ensures r.Some? ==> q < r.value.1 <= |s|
  {
    var e := DigitEnd(s, q);
    if e == q then None else Some((DigitsValue(s[q..e]), e))
  }

  /** A number with an optional sign starting at position `p`: its value
      and the position after it, or None when there is none or it does not
      fit an `int`. */
  function ReadSigned(s: string, p: nat): (r: Option<(int, nat)>)
    requires p <= |s|
    ensures r.Some? ==> p < r.value.1 <= |s| && IntMin <= r.value.0 <= IntMax
  {
    var negative := p < |s| && s[p] == '-';
    var q := if p < |s| && (s[p] == '+' || negative) then p + 1 else p;
    match Magnitude(s, q)
    case None => None
    case Some((m, e)) =>
      var v := if negative then -m else m;
      if v < IntMin || v > IntMax then None else Some((v, e))
  }

  /** One extraction of an `int` from the stream whose rest starts at
      position `i`: leading white space, an optional sign and at least one
      digit, whose value must fit an `int`. The result is the number and
      the position after it, or None when the extraction fails (and the
      loop ends). */
  function ReadInt(s: string, i: nat): (r: Option<(int, nat)>)
    requires i <= |s|
    ensures r.Some? ==> i < r.value.1 <= |s| && IntMin <= r.value.0 <= IntMax
  {
    ReadSigned(s, SpaceEnd(s, i))
  }

  /** After a number, one ',' or ' ' is skipped. */
  function SkipSeparator(s: string, e: nat): (next: nat)
    requires e <= |s|
    ensures e <= next <= |s|
  {
    if e < |s| && (s[e] == ',' || s[e] == ' ') then e + 1 else e
  }

  /** The numbers `TokenizeCsv` returns for the stream contents from
      position `pos` on. */
  function Tokens(s: string, pos: nat): seq<int>
    requires pos <= |s|
    decreases |s| - pos
  {
    match ReadInt(s, pos)
    case None => []
    case Some((v, e)) => [v] + Tokens(s, SkipSeparator(s, e))
  }

  /** The loop of configio.cpp:16-21. */
  method TokenizeCsv(s: string) returns (res: seq<int>)
    ensures res == Tokens(s, 0)
  {
    res := [];
    var pos := 0;
    while true
      invariant 0 <= pos <= |s|
      invariant Tokens(s, 0) == res + Tokens(s, pos)
      decreases |s| - pos
    {
      var num := ReadInt(s, pos);
      if num.None? {
        TokensNone(s, pos);
        break;
      }
      var e := num.value.1;
      if e < |s| && (s[e] == ',' || s[e] == ' ') {
        e := e + 1;
      }
      TokensAdvance(s, res, pos, num.value.0, num.value.1, e);
      res := res + [num.value.0];
      pos := e;
    }
  }

  lemma TokensNone(s: string, i: nat)
    requires i <= |s| && ReadInt(s, i).None?
    ensures Tokens(s, i) == []
  {
  }

  /** One step of the loop: a read at `pos` ending at `e`, then the
      separator, keeps the loop invariant. */
  lemma TokensAdvance(s: string, before: seq<int>, pos: nat, v: int, e: nat, next: nat)
    requires pos <= |s| && ReadInt(s, pos) == Some((v, e))
    requires next == SkipSeparator(s, e)
    requires Tokens(s, 0) == before + Tokens(s, pos)
    ensures Tokens(s, 0) == (before + [v]) + Tokens(s, next)
  {
    TokensCons(s, pos, v, e);
    AppendAssoc(before, [v], Tokens(s, next));
  }

  // ---------------------------------------------------------------------
  // The writer and the round trip

  function DigitChar(d: int): char
    requires 0 <= d < 10
  {
    ('0' as int + d) as char
  }

  /** Python's `str` of a non-negative int: decimal, no leading zero. */
  function NatToString(n: nat): (s: string)
    ensures s != [] && forall i :: 0 <= i < |s| ==> IsDigit(s[i])
    decreases n
  {
    if n < 10 then [DigitChar(n)] else NatToString(n / 10) + [DigitChar(n % 10)]
  }

  function IntToString(x: int): string {
    if x < 0 then "-" + NatToString(-x) else NatToString(x)
  }

  /** The numbers written in decimal and separated by commas. */
  function Join(xs: seq<int>): string
    decreases |xs|
  {
    if xs == [] then ""
    else if |xs| == 1 then IntToString(xs[0])
    else IntToString(xs[0]) + "," + Join(xs[1..])
  }

  predicate AllInt32(xs: seq<int>) {
    forall i :: 0 <= i < |xs| ==> IntMin <= xs[i] <= IntMax
  }

  lemma {:induction false} DigitsValueOfString(n: nat)
    ensures DigitsValue(NatToString(n)) == n
    decreases n
  {
    if n >= 10 {
      DigitsValueOfString(n / 10);
      var s := NatToString(n);
      assert s[..|s| - 1] == NatToString(n / 10);
    }
  }

  /** The digits from `i` to `j` end where a non-digit (or the end) follows. */
  lemma {:induction false} DigitEndAt(s: string, i: nat, j: nat)
    requires i <= j <= |s|
    requires forall k :: i <= k < j ==> IsDigit(s[k])
    requires j == |s| || !IsDigit(s[j])
    ensures DigitEnd(s, i) == j
    decreases j - i
  {
    if i < j {
      DigitEndAt(s, i + 1, j);
    }
  }

  /** What `s[i..] == a + b` says position by position. */
  lemma SplitAt(s: string, i: nat, a: string, b: string)
    requires i <= |s| && s[i..] == a + b
    ensures i + |a| <= |s|
    ensures s[i + |a|..] == b
    ensures forall k :: i <= k < i + |a| ==> s[k] == a[k - i]
  {
    forall k | i <= k < i + |a|
      ensures s[k] == a[k - i]
    {
      assert s[k] == s[i..][k - i];
    }
    assert s[i + |a|..] == s[i..][|a|..];
  }

  /** The digits `ds` written at position `q` and followed by a non-digit
      (or the end) are read as one run. */
  lemma MagnitudeAt(s: string, q: nat, ds: string, rest: string)
    requires ds != [] && forall k :: 0 <= k < |ds| ==> IsDigit(ds[k])
    requires q <= |s| && s[q..] == ds + rest
    requires rest == [] || !IsDigit(rest[0])
    ensures Magnitude(s, q) == Some((DigitsValue(ds), q + |ds|))
  {
    SplitAt(s, q, ds, rest);
    var e := q + |ds|;
    if e < |s| {
      assert s[e] == s[e..][0];
    }
    forall k | q <= k < e
      ensures IsDigit(s[k])
    {
      assert s[k] == ds[k - q];
    }
    DigitEndAt(s, q, e);
    assert s[q..e] == ds;
  }

  /** A written number at position `i`, followed by anything that does not
      start with a digit, is read back and the read stops right after it. */
  lemma ReadWritten(s: string, i: nat, x: int, rest: string)
    requires IntMin <= x <= IntMax
    requires i <= |s| && s[i..] == IntToString(x) + rest
    requires rest == [] || !IsDigit(rest[0])
    ensures i + |IntToString(x)| <= |s|
    ensures ReadInt(s, i) == Some((x, i + |IntToString(x)|))
    ensures s[i + |IntToString(x)|..] == rest
  {
    SplitAt(s, i, IntToString(x), rest);
    if x < 0 {
      ReadWrittenNegative(s, i, x, rest);
    } else {
      ReadWrittenNonNegative(s, i, x, rest);
    }
  }

  /** The same, naming the position after the number. */
  lemma ReadWrittenEnd(s: string, i: nat, x: int, rest: string) returns (e: nat)
    requires IntMin <= x <= IntMax
    requires i <= |s| && s[i..] == IntToString(x) + rest
    requires rest == [] || !IsDigit(rest[0])
    ensures e <= |s| && ReadInt(s, i) == Some((x, e)) && s[e..] == rest
  {
    ReadWritten(s, i, x, rest);
    e := i + |IntToString(x)|;
  }

  lemma ReadWrittenNegative(s: string, i: nat, x: int, rest: string)
    requires IntMin <= x < 0
    requires i <= |s| && s[i..] == "-" + NatToString(-x) + rest
    requires rest == [] || !IsDigit(rest[0])
    ensures ReadInt(s, i) == Some((x, i + 1 + |NatToString(-x)|))
  {
    var ds := NatToString(-x);
    AppendAssoc("-", ds, rest);
    SplitAt(s, i, "-", ds + rest);
    MagnitudeAt(s, i + 1, ds, rest);
    DigitsValueOfString(-x);
    ReadNegative(s, i, -x, i + 1 + |ds|);
  }

  lemma ReadWrittenNonNegative(s: string, i: nat, x: int, rest: string)
    requires 0 <= x <= IntMax
    requires i <= |s| && s[i..] == NatToString(x) + rest
    requires rest == [] || !IsDigit(rest[0])
    ensures ReadInt(s, i) == Some((x, i + |NatToString(x)|))
  {
    var ds := NatToString(x);
    SplitAt(s, i, ds, rest);
    MagnitudeAt(s, i, ds, rest);
    DigitsValueOfString(x);
    ReadNonNegative(s, i, x, i + |ds|);
  }

  lemma ReadNegative(s: string, i: nat, m: int, e: nat)
    requires i < |s| && s[i] == '-'
    requires Magnitude(s, i + 1) == Some((m, e)) && IntMin <= -m <= IntMax
    ensures ReadInt(s, i) == Some((-m, e))
  {
    assert SpaceEnd(s, i) == i;
  }

  lemma ReadNonNegative(s: string, i: nat, m: int, e: nat)
    requires i < |s| && IsDigit(s[i])
    requires Magnitude(s, i) == Some((m, e)) && IntMin <= m <= IntMax
    ensures ReadInt(s, i) == Some((m, e))
  {
    assert SpaceEnd(s, i) == i;
  }

  /** A successful read is followed by the numbers after its separator. */
  lemma TokensCons(s: string, i: nat, x: int, e: nat)
    requires i <= |s| && ReadInt(s, i) == Some((x, e))
    ensures Tokens(s, i) == [x] + Tokens(s, SkipSeparator(s, e))
  {
  }

  /** Nothing is read at the end of the stream or before a ','. */
  lemma TokensStop(s: string, i: nat)
    requires i == |s| || (i < |s| && s[i] == ',')
    ensures Tokens(s, i) == []
  {
    assert SpaceEnd(s, i) == i;
    assert DigitEnd(s, i) == i;
  }

  /** A written number followed by a ',' is read up to the ','. */
  lemma ReadWrittenComma(s: string, i: nat, x: int, u: string) returns (n: nat)
    requires IntMin <= x <= IntMax
    requires i <= |s| && s[i..] == IntToString(x) + ("," + u)
    ensures n < |s| && s[n] == ',' && s[n + 1..] == u
    ensures ReadInt(s, i) == Some((x, n))
  {
    n := ReadWrittenEnd(s, i, x, "," + u);
    SplitAt(s, n, ",", u);
  }

  /** A read that ends before a ',' is followed by the numbers after the
      ','. */
  lemma TokensAfterComma(s: string, i: nat, x: int, n: nat)
    requires i <= |s| && ReadInt(s, i) == Some((x, n))
    requires n < |s| && s[n] == ','
    ensures Tokens(s, i) == [x] + Tokens(s, n + 1)
  {
    assert SkipSeparator(s, n) == n + 1;
    TokensCons(s, i, x, n);
  }

  lemma JoinCons(xs: seq<int>)
    requires |xs| >= 2
    ensures Join(xs) == IntToString(xs[0]) + ("," + Join(xs[1..]))
  {
  }

  lemma DoubleCommaCons(xs: seq<int>, t: string)
    requires xs != []
    ensures |xs| == 1 ==> Join(xs) + ",," + t == IntToString(xs[0]) + (",," + t)
    ensures |xs| >= 2 ==>
      Join(xs) + ",," + t == IntToString(xs[0]) + ("," + (Join(xs[1..]) + ",," + t))
  {
    if |xs| >= 2 {
      JoinCons(xs);
      Reassociate(IntToString(xs[0]), Join(xs[1..]), t);
    }
  }

  lemma AppendAssoc<T>(a: seq<T>, b: seq<T>, c: seq<T>)
    ensures (a + b) + c == a + (b + c)
  {
  }

  lemma Reassociate(a: string, b: string, t: string)
    ensures (a + ("," + b)) + ",," + t == a + ("," + (b + ",," + t))
  {
    AppendAssoc(a, "," + b, ",," + t);
    AppendAssoc(",", b, ",," + t);
    AppendAssoc(b, ",,", t);
    AppendAssoc(a + ("," + b), ",,", t);
  }

  /** The first of several joined numbers is read up to the ',' before
      the rest. */
  lemma JoinText(s: string, i: nat, xs: seq<int>) returns (n: nat)
    requires |xs| >= 2 && IntMin <= xs[0] <= IntMax
    requires i <= |s| && s[i..] == Join(xs)
    ensures n < |s| && s[n] == ',' && s[n + 1..] == Join(xs[1..])
    ensures ReadInt(s, i) == Some((xs[0], n))
  {
    JoinCons(xs);
    n := ReadWrittenComma(s, i, xs[0], Join(xs[1..]));
  }

  lemma DoubleCommaText(s: string, i: nat, xs: seq<int>, t: string) returns (n: nat)
    requires |xs| >= 2 && IntMin <= xs[0] <= IntMax
    requires i <= |s| && s[i..] == Join(xs) + ",," + t
    ensures n < |s| && s[n] == ',' && s[n + 1..] == Join(xs[1..]) + ",," + t
    ensures ReadInt(s, i) == Some((xs[0], n))
  {
    DoubleCommaCons(xs, t);
    n := ReadWrittenComma(s, i, xs[0], Join(xs[1..]) + ",," + t);
  }

  // ---------------------------------------------------------------------
  // The reader only looks forward: what it does from a position depends on
  // nothing but the characters from there on.

  /** Equal rests stay equal when both are advanced by `d`. */
  lemma SameRest(s: string, t: string, i: nat, j: nat, d: nat)
    requires i <= |s| && j <= |t| && s[i..] == t[j..]
    requires d <= |s| - i
    ensures |s| - i == |t| - j
    ensures s[i + d..] == t[j + d..]
    ensures d < |s| - i ==> s[i + d] == t[j + d]
  {
    assert |s[i..]| == |t[j..]|;
    assert s[i + d..] == s[i..][d..];
    assert t[j + d..] == t[j..][d..];
    if d < |s| - i {
      assert s[i + d] == s[i..][d];
      assert t[j + d] == t[j..][d];
    }
  }

  lemma {:induction false} SpaceEndShift(s: string, t: string, i: nat, j: nat)
    requires i <= |s| && j <= |t| && s[i..] == t[j..]
    ensures SpaceEnd(s, i) - i == SpaceEnd(t, j) - j
    decreases |s| - i
  {
    SameRest(s, t, i, j, 0);
    if i < |s| && IsSpace(s[i]) {
      SameRest(s, t, i, j, 1);
      SpaceEndShift(s, t, i + 1, j + 1);
    }
  }

  lemma {:induction false} DigitEndShift(s: string, t: string, i: nat, j: nat)
    requires i <= |s| && j <= |t| && s[i..] == t[j..]
    ensures DigitEnd(s, i) - i == DigitEnd(t, j) - j
    decreases |s| - i
  {
    SameRest(s, t, i, j, 0);
    if i < |s| && IsDigit(s[i]) {
      SameRest(s, t, i, j, 1);
      DigitEndShift(s, t, i + 1, j + 1);
    }
  }

  lemma MagnitudeShift(s: string, t: string, q: nat, r: nat)
    requires q <= |s| && r <= |t| && s[q..] == t[r..]
    ensures Magnitude(s, q).Some? == Magnitude(t, r).Some?
    ensures Magnitude(s, q).Some? ==>
      Magnitude(s, q).value.0 == Magnitude(t, r).value.0 &&
      Magnitude(s, q).value.1 - q == Magnitude(t, r).value.1 - r
  {
    DigitEndShift(s, t, q, r);
    var e := DigitEnd(s, q);
    var f := DigitEnd(t, r);
    assert s[q..e] == s[q..][..e - q];
    assert t[r..f] == t[r..][..f - r];
  }

  lemma ReadSignedShift(s: string, t: string, p: nat, p': nat)
    requires p <= |s| && p' <= |t| && s[p..] == t[p'..]
    ensures ReadSigned(s, p).Some? == ReadSigned(t, p').Some?
    ensures ReadSigned(s, p).Some? ==>
      ReadSigned(s, p).value.0 == ReadSigned(t, p').value.0 &&
      ReadSigned(s, p).value.1 - p == ReadSigned(t, p').value.1 - p'
  {
    SameRest(s, t, p, p', 0);
    if p < |s| {
      SameRest(s, t, p, p', 1);
      MagnitudeShift(s, t, p + 1, p' + 1);
    }
    MagnitudeShift(s, t, p, p');
  }

  lemma ReadIntShift(s: string, t: string, i: nat, j: nat)
    requires i <= |s| && j <= |t| && s[i..] == t[j..]
    ensures ReadInt(s, i).Some? == ReadInt(t, j).Some?
    ensures ReadInt(s, i).Some? ==>
      ReadInt(s, i).value.0 == ReadInt(t, j).value.0 &&
      ReadInt(s, i).value.1 - i == ReadInt(t, j).value.1 - j
  {
    SpaceEndShift(s, t, i, j);
    var p := SpaceEnd(s, i);
    SameRest(s, t, i, j, p - i);
    ReadSignedShift(s, t, p, SpaceEnd(t, j));
  }

  /** The numbers read from a position depend only on what follows it. */
  lemma {:induction false} TokensShift(s: string, t: string, i: nat, j: nat)
    requires i <= |s| && j <= |t| && s[i..] == t[j..]
    ensures Tokens(s, i) == Tokens(t, j)
    decreases |s| - i
  {
    ReadIntShift(s, t, i, j);
    if ReadInt(s, i).Some? {
      var e := ReadInt(s, i).value.1;
      var f := ReadInt(t, j).value.1;
      SameRest(s, t, i, j, e - i);
      var n := SkipSeparator(s, e);
      SameRest(s, t, i, j, n - i);
      TokensShift(s, t, n, SkipSeparator(t, f));
    }
  }

  // ---------------------------------------------------------------------
  // The round trip

  /** Reading joined numbers gives the first, then what reading the others
      on their own gives. */
  lemma JoinTokensStep(xs: seq<int>)
    requires |xs| >= 2 && IntMin <= xs[0] <= IntMax
    ensures Tokens(Join(xs), 0) == [xs[0]] + Tokens(Join(xs[1..]), 0)
  {
    var s := Join(xs);
    assert s[0..] == s;
    var n := JoinText(s, 0, xs);
    TokensAfterComma(s, 0, xs[0], n);
    assert Join(xs[1..])[0..] == Join(xs[1..]);
    TokensShift(s, Join(xs[1..]), n + 1, 0);
  }

  /** One number written on its own is read back. */
  lemma JoinOneTokens(x: int)
    requires IntMin <= x <= IntMax
    ensures Tokens(Join([x]), 0) == [x]
  {
    var s := Join([x]);
    assert s[0..] == IntToString(x) + "";
    var e := ReadWrittenEnd(s, 0, x, "");
    TokensCons(s, 0, x, e);
    TokensStop(s, e);
  }

  /** Reading back what the writer produced gives the numbers, provided
      they fit an `int`. */
  lemma {:induction false} TokensOfJoin(xs: seq<int>)
    requires AllInt32(xs)
    ensures Tokens(Join(xs), 0) == xs
    decreases |xs|
  {
    if xs == [] {
      TokensStop(Join(xs), 0);
    } else if |xs| == 1 {
      JoinOneTokens(xs[0]);
      assert [xs[0]] == xs;
    } else {
      JoinTokensStep(xs);
      TokensOfJoin(xs[1..]);
      assert [xs[0]] + xs[1..] == xs;
    }
  }

  /** Reading joined numbers followed by ",," and anything: the first,
      then what the same reading of the others gives. */
  lemma DoubleCommaStep(xs: seq<int>, t: string)
    requires |xs| >= 2 && IntMin <= xs[0] <= IntMax
    ensures Tokens(Join(xs) + ",," + t, 0) == [xs[0]] + Tokens(Join(xs[1..]) + ",," + t, 0)
  {
    var s := Join(xs) + ",," + t;
    var w := Join(xs[1..]) + ",," + t;
    assert s[0..] == s;
    var n := DoubleCommaText(s, 0, xs, t);
    TokensAfterComma(s, 0, xs[0], n);
    assert w[0..] == w;
    TokensShift(s, w, n + 1, 0);
  }

  /** Only one separator is skipped: after ",," the tokenizer stops and
      keeps the numbers read so far, whatever follows. */
  lemma {:induction false} TokensStopAtDoubleComma(xs: seq<int>, t: string)
    requires xs != [] && AllInt32(xs)
    ensures Tokens(Join(xs) + ",," + t, 0) == xs
    decreases |xs|
  {
    if |xs| == 1 {
      DoubleCommaOne(xs[0], t);
      assert [xs[0]] == xs;
    } else {
      DoubleCommaStep(xs, t);
      TokensStopAtDoubleComma(xs[1..], t);
      assert [xs[0]] + xs[1..] == xs;
    }
  }

  /** One number followed by ",,": only that number is read. */
  lemma DoubleCommaOne(x: int, t: string)
    requires IntMin <= x <= IntMax
    ensures Tokens(Join([x]) + ",," + t, 0) == [x]
  {
    var s := Join([x]) + ",," + t;
    assert s[0..] == IntToString(x) + ("," + ("," + t));
    var n := ReadWrittenComma(s, 0, x, "," + t);
    SplitAt(s, n + 1, ",", t);
    TokensAfterComma(s, 0, x, n);
    TokensStop(s, n + 1);
  }

  /** "1,,2" concretely: the tokenizer gives [1]. */
  lemma DoubleCommaExample()
    ensures Tokens("1,,2", 0) == [1]
  {
    assert Join([1]) == "1";
    assert Join([1]) + ",," + "2" == "1,,2";
    TokensStopAtDoubleComma([1], "2");
  }
}
