/** Number formatting for the consumer panels. */
module UiFormat {
  import opened Wrappers
  import opened GoInt

  predicate IsDigit(c: char) {
    '0' <= c <= '9'
  }

  predicate AllDigits(s: string) {
    forall i :: 0 <= i < |s| ==> IsDigit(s[i])
  }

  function DigitChar(d: nat): (c: char)
    requires d < 10
    ensures IsDigit(c)
  {
    ('0' as int + d) as char
  }

  function DigitValue(c: char): nat
    requires IsDigit(c)
  {
    c as int - '0' as int
  }

  /** strconv.FormatUint(n, 10): the decimal digits of n, most significant first,
      without leading zeros. */
  function Decimal(n: nat): (s: string)
    ensures |s| > 0 && AllDigits(s)
    ensures |s| > 1 ==> s[0] != '0'
  {
    if n < 10 then [DigitChar(n)] else Decimal(n / 10) + [DigitChar(n % 10)]
  }

  /** The number a string of digits denotes. */
  function Value(s: string): nat
    requires AllDigits(s)
  {
    if s == [] then 0 else Value(s[..|s| - 1]) * 10 + DigitValue(s[|s| - 1])
  }

  lemma {:induction false} DecimalValue(n: nat)
    ensures Value(Decimal(n)) == n
  {
    if n >= 10 {
      DecimalValue(n / 10);
      var s := Decimal(n);
      assert s[..|s| - 1] == Decimal(n / 10);
    }
  }

  /** A number has at most three digits exactly when it is below 1000. */
  lemma {:induction false} DecimalShort(n: nat)
    ensures |Decimal(n)| <= 3 <==> n < 1000
  {
    if n >= 10 {
      DecimalShort(n / 10);
      if n >= 1000 {
        DecimalLong(n / 10);
      }
    }
  }

  lemma {:induction false} DecimalLong(n: nat)
    requires n >= 100
    ensures |Decimal(n)| >= 3
  {
    if n >= 1000 {
      DecimalLong(n / 10);
    } else {
      assert n / 10 >= 10;
    }
  }

  /** The reference rendering: digits grouped by threes from the right, separated by commas. */
  function Separated(d: string): string {
    if |d| <= 3 then d else Separated(d[..|d| - 3]) + "," + d[|d| - 3..]
  }

  /** Digits grouped by threes from the left: what the loop appends, least significant first. */
  function Chunked(r: string): string {
    if |r| <= 3 then r else r[..3] + "," + Chunked(r[3..])
  }

  function Rev(s: string): (r: string)
    ensures |r| == |s|
  {
    if s == [] then [] else Rev(s[1..]) + [s[0]]
  }

  lemma {:induction false} RevAt(s: string, k: nat)
    requires k < |s|
    ensures Rev(s)[k] == s[|s| - 1 - k]
  {
    if k < |s| - 1 {
      RevAt(s[1..], k);
    }
  }

  lemma {:induction false} RevConcat(a: string, b: string)
    ensures Rev(a + b) == Rev(b) + Rev(a)
  {
    forall k | 0 <= k < |a + b| ensures Rev(a + b)[k] == (Rev(b) + Rev(a))[k] {
      RevAt(a + b, k);
      if k < |b| {
        RevAt(b, k);
      } else {
        RevAt(a, k - |b|);
      }
    }
  }

  lemma {:induction false} RevRev(s: string)
    ensures Rev(Rev(s)) == s
  {
    forall k | 0 <= k < |s| ensures Rev(Rev(s))[k] == s[k] {
      RevAt(Rev(s), k);
      RevAt(s, |s| - 1 - k);
    }
  }

  /** Appending one digit to what has been chunked so far. */
  lemma {:induction false} ChunkedAppend(p: string, c: char)
    ensures Chunked(p + [c]) == if |p| > 0 && |p| % 3 == 0 then Chunked(p) + [',', c] else Chunked(p) + [c]
  {
    if |p| > 3 {
      assert (p + [c])[..3] == p[..3];
      assert (p + [c])[3..] == p[3..] + [c];
      ChunkedAppend(p[3..], c);
    } else if |p| == 3 {
      assert (p + [c])[..3] == p;
      assert (p + [c])[3..] == [c];
    }
  }

  /** Reversing the left-chunked reversed digits gives the right-grouped digits. */
  lemma {:induction false} RevChunked(r: string)
    ensures Rev(Chunked(r)) == Separated(Rev(r))
  {
    if |r| > 3 {
      RevChunked(r[3..]);
      RevConcat(r[..3] + ",", Chunked(r[3..]));
      RevConcat(r[..3], ",");
      assert r == r[..3] + r[3..];
      RevConcat(r[..3], r[3..]);
      var t := Rev(r);
      assert t[..|t| - 3] == Rev(r[3..]);
      assert t[|t| - 3..] == Rev(r[..3]);
    }
  }

  /** What the append loop has produced after taking the last j digits of s. */
  function Emitted(s: string, j: nat): string
    requires j <= |s|
  {
    Chunked(Rev(s)[..j]) + (if j > 0 && j % 3 == 0 && j < |s| then "," else "")
  }

  lemma {:induction false} EmittedStep(s: string, j: nat)
    requires 1 <= j <= |s|
    ensures Emitted(s, j) == Emitted(s, j - 1) + [s[|s| - j]] + (if j % 3 == 0 && j < |s| then "," else "")
  {
    var done := Rev(s)[..j - 1];
    RevAt(s, j - 1);
    assert Rev(s)[..j] == done + [s[|s| - j]];
    ChunkedAppend(done, s[|s| - j]);
  }

  /** FormatInt: the decimal digits of n with a comma before every group of three
      counted from the right. */
  method FormatInt(n: U64) returns (r: string)
    ensures r == Separated(Decimal(n))
  {
    var s := Decimal(n);
    if |s| <= 3 {
      return s;
    }
    var out := EmitBackwards(s);
    ReverseResult(s, out);
    var buf := new char[|out|](k requires 0 <= k < |out| => out[k]);
    assert buf[..] == out;
    ReverseInPlace(buf);
    r := buf[..];
  }

  /** FormatInt's first loop: the digits last to first, a comma after every third
      one unless it is the leading digit. */
  method EmitBackwards(s: string) returns (out: string)
    ensures out == Emitted(s, |s|)
  {
    out := [];
    var i, j := |s| - 1, 1;
    while i >= 0
      invariant -1 <= i < |s| && j == |s| - i
      invariant out == Emitted(s, j - 1)
    {
      EmittedStep(s, j);
      out := out + [s[i]];
      if j % 3 == 0 && i != 0 {
        out := out + [','];
      }
      i, j := i - 1, j + 1;
    }
  }

  /** FormatInt's second loop: swapping from both ends reverses the buffer. */
  method ReverseInPlace(buf: array<char>)
    modifies buf
    ensures buf[..] == Rev(old(buf[..]))
  {
    ghost var orig := buf[..];
    var l, h := 0, buf.Length - 1;
    while l < h
      invariant 0 <= l <= buf.Length && h == buf.Length - 1 - l
      invariant forall k :: 0 <= k < l ==> buf[k] == orig[buf.Length - 1 - k] && buf[buf.Length - 1 - k] == orig[k]
      invariant forall k :: l <= k <= h ==> buf[k] == orig[k]
    {
      buf[l], buf[h] := buf[h], buf[l];
      l, h := l + 1, h - 1;
    }
    forall k | 0 <= k < buf.Length ensures buf[k] == Rev(orig)[k] {
      RevAt(orig, k);
    }
  }

  lemma {:induction false} ReverseResult(s: string, out: string)
    requires out == Emitted(s, |s|)
    ensures Rev(out) == Separated(s)
  {
    var r := Rev(s);
    assert r[..|s|] == r;
    assert out == Chunked(r) + "";
    assert out == Chunked(r);
    RevChunked(r);
    RevRev(s);
  }

  function RemoveCommas(t: string): (r: string)
    ensures |r| <= |t|
  {
    if t == [] then [] else (if t[0] == ',' then [] else [t[0]]) + RemoveCommas(t[1..])
  }

  function CommaCount(t: string): nat {
    |t| - |RemoveCommas(t)|
  }

  lemma {:induction false} RemoveCommasConcat(a: string, b: string)
    ensures RemoveCommas(a + b) == RemoveCommas(a) + RemoveCommas(b)
  {
    if a != [] {
      var head := if a[0] == ',' then [] else [a[0]];
      assert (a + b)[0] == a[0];
      assert (a + b)[1..] == a[1..] + b;
      assert RemoveCommas(a + b) == head + RemoveCommas(a[1..] + b);
      RemoveCommasConcat(a[1..], b);
      assert RemoveCommas(a) == head + RemoveCommas(a[1..]);
    } else {
      assert a + b == b;
    }
  }

  lemma {:induction false} RemoveCommasNone(d: string)
    requires forall i :: 0 <= i < |d| ==> d[i] != ','
    ensures RemoveCommas(d) == d
  {
    if d != [] {
      RemoveCommasNone(d[1..]);
    }
  }

  /** Deleting the commas gives back the digits. */
  lemma {:induction false} SeparatedDigits(d: string)
    requires forall i :: 0 <= i < |d| ==> d[i] != ','
    ensures RemoveCommas(Separated(d)) == d
  {
    if |d| <= 3 {
      RemoveCommasNone(d);
    } else {
      var p, q := d[..|d| - 3], d[|d| - 3..];
      assert Separated(d) == Separated(p) + "," + q;
      SeparatedDigits(p);
      RemoveCommasGroup(Separated(p), q);
      assert p + q == d;
    }
  }

  /** Deleting the commas across a comma and a group of digits. */
  lemma {:induction false} RemoveCommasGroup(t: string, q: string)
    requires forall i :: 0 <= i < |q| ==> q[i] != ','
    ensures RemoveCommas(t + "," + q) == RemoveCommas(t) + q
  {
    RemoveCommasConcat(t + ",", q);
    RemoveCommasConcat(t, ",");
    RemoveCommasNone(q);
    assert RemoveCommas(",") == [];
  }

  /** One comma per full group of three after the leading one: (|d| - 1) / 3 of them,
      which never makes the length a multiple of four. */
  lemma {:induction false} SeparatedLength(d: string)
    requires |d| > 0
    ensures |Separated(d)| == |d| + (|d| - 1) / 3
    ensures |Separated(d)| % 4 != 0
  {
    if |d| > 3 {
      var p := d[..|d| - 3];
      SeparatedLength(p);
      assert |Separated(d)| == |Separated(p)| + 4;
      assert (|d| - 1) / 3 == (|p| - 1) / 3 + 1;
    }
  }

  /** The comma count of the rendering. */
  lemma {:induction false} SeparatedCommas(d: string)
    requires |d| > 0 && forall i :: 0 <= i < |d| ==> d[i] != ','
    ensures CommaCount(Separated(d)) == (|d| - 1) / 3
  {
    SeparatedDigits(d);
    SeparatedLength(d);
  }

  /** Position i of the rendering is a comma exactly when it is a multiple of four
      characters from the end. */
  lemma {:induction false} SeparatedAt(d: string, i: nat)
    requires forall k :: 0 <= k < |d| ==> d[k] != ','
    requires i < |Separated(d)|
    ensures Separated(d)[i] == ',' <==> (|Separated(d)| - i) % 4 == 0
  {
    if |d| > 3 {
      var p, q := d[..|d| - 3], d[|d| - 3..];
      var tp := Separated(p);
      var t := Separated(d);
      assert t == tp + "," + q;
      if i < |tp| {
        SeparatedAt(p, i);
        assert t[i] == tp[i];
        ModFourShift(|tp| - i);
      } else if i > |tp| {
        assert t[i] == q[i - |tp| - 1];
      }
    }
  }

  lemma {:induction false} ModFourShift(x: int)
    ensures (x + 4) % 4 == x % 4
  {
  }

  /** The grouping: counting from the right, every fourth character is a comma and no
      other is, so each comma is followed by exactly three digits before the next
      comma or the end, the leading group has one to three digits, and the text
      neither starts nor ends with a comma. */
  lemma {:induction false} SeparatedShape(d: string)
    requires |d| > 0 && forall i :: 0 <= i < |d| ==> d[i] != ','
    ensures var t := Separated(d);
      && |t| % 4 != 0
      && (forall i :: 0 <= i < |t| ==> (t[i] == ',' <==> (|t| - i) % 4 == 0))
      && t[0] != ',' && t[|t| - 1] != ','
  {
    var t := Separated(d);
    SeparatedLength(d);
    forall i | 0 <= i < |t| ensures t[i] == ',' <==> (|t| - i) % 4 == 0 {
      SeparatedAt(d, i);
    }
  }

  /** Three digits or fewer are left as they are; in particular a number below 1000
      is rendered as its plain decimal. */
  lemma {:induction false} FormatSmall(n: U64)
    ensures n < 1000 ==> Separated(Decimal(n)) == Decimal(n)
    ensures n >= 1000 ==> ',' in Separated(Decimal(n))
  {
    DecimalShort(n);
    if n >= 1000 {
      var d := Decimal(n);
      var t := Separated(d);
      assert forall i :: 0 <= i < |d| ==> d[i] != ',';
      SeparatedShape(d);
      SeparatedLength(d);
      assert t[|t| - 4] == ',';
    }
  }

  /** The digits of a formatted number, after deleting the commas, denote the number. */
  lemma {:induction false} FormatValue(n: U64)
    ensures AllDigits(RemoveCommas(Separated(Decimal(n))))
    ensures Value(RemoveCommas(Separated(Decimal(n)))) == n
  {
    var d := Decimal(n);
    assert forall i :: 0 <= i < |d| ==> d[i] != ',';
    SeparatedDigits(d);
    DecimalValue(n);
  }

  /** What Ago renders: "never" for a missing or zero time, otherwise the elapsed time
      since it, which the wall clock decides. */
  datatype AgoText = Never | ElapsedSince(since: Instant)

  function Ago(t: Option<Instant>): (a: AgoText)
    ensures a == Never <==> t.None? || IsZeroTime(t.value)
    ensures a.ElapsedSince? ==> t == Some(a.since)
  {
    if t.None? || IsZeroTime(t.value) then Never else ElapsedSince(t.value)
  }
}
