/** The pieces of Go's `strings`, `fmt` and `strconv` packages that the engine's formats rest on. */
module Text {
  import opened Wrappers

  // ---------------------------------------------------------------- splitting

  /** `strings.Split(s, sep)` for a one-character separator. */
  function Split(s: string, sep: char): (parts: seq<string>)
    ensures |parts| >= 1
  {
    if s == [] then [""] else Prepend(s[0], Split(s[1..], sep), sep)
  }

  /** The segments of a text with one more character in front. */
  function Prepend(c: char, parts: seq<string>, sep: char): (r: seq<string>)
    requires |parts| >= 1
    ensures |r| >= 1
  {
    if c == sep then [""] + parts else [[c] + parts[0]] + parts[1..]
  }

  function Join(parts: seq<string>, sep: char): string
    requires |parts| >= 1
  {
    if |parts| == 1 then parts[0] else parts[0] + [sep] + Join(parts[1..], sep)
  }

  lemma JoinPrepend(c: char, parts: seq<string>, sep: char)
    requires |parts| >= 1
    ensures Join(Prepend(c, parts, sep), sep) == [c] + Join(parts, sep)
  {
    if c == sep {
      assert ([""] + parts)[1..] == parts;
    } else if |parts| > 1 {
      assert ([[c] + parts[0]] + parts[1..])[1..] == parts[1..];
    }
  }

  lemma {:induction false} JoinSplit(s: string, sep: char)
    ensures Join(Split(s, sep), sep) == s
  {
    if s != [] {
      JoinSplit(s[1..], sep);
      JoinPrepend(s[0], Split(s[1..], sep), sep);
      assert s == [s[0]] + s[1..];
    }
  }

  lemma {:induction false} SplitParts(s: string, sep: char)
    ensures forall i :: 0 <= i < |Split(s, sep)| ==> sep !in Split(s, sep)[i]
  {
    if s != [] {
      SplitParts(s[1..], sep);
    }
  }

  lemma {:induction false} SplitWhole(s: string, sep: char)
    requires sep !in s
    ensures Split(s, sep) == [s]
  {
    if s != [] {
      assert sep !in s[1..];
      SplitWhole(s[1..], sep);
      assert s == [s[0]] + s[1..];
    }
  }

  lemma PrependConcat(c: char, p: seq<string>, q: seq<string>, sep: char)
    requires |p| >= 1
    ensures Prepend(c, p + q, sep) == Prepend(c, p, sep) + q
  {
    if c != sep {
      assert (p + q)[1..] == p[1..] + q;
    }
  }

  /** Splitting distributes over joining two texts with one separator. */
  lemma {:induction false} SplitConcat(a: string, b: string, sep: char)
    ensures Split(a + [sep] + b, sep) == Split(a, sep) + Split(b, sep)
  {
    var whole := a + [sep] + b;
    if a == [] {
      assert whole[1..] == b;
    } else {
      assert whole[0] == a[0] && whole[1..] == a[1..] + [sep] + b;
      SplitConcat(a[1..], b, sep);
      PrependConcat(a[0], Split(a[1..], sep), Split(b, sep), sep);
    }
  }

  /** Joining separator-free parts and splitting again gives the parts back. */
  lemma {:induction false} SplitJoin(parts: seq<string>, sep: char)
    requires |parts| >= 1
    requires forall i :: 0 <= i < |parts| ==> sep !in parts[i]
    ensures Split(Join(parts, sep), sep) == parts
  {
    SplitWhole(parts[0], sep);
    if |parts| > 1 {
      SplitJoin(parts[1..], sep);
      SplitConcat(parts[0], Join(parts[1..], sep), sep);
    }
  }

  lemma {:induction false} JoinConcat(p: seq<string>, q: seq<string>, sep: char)
    requires |p| >= 1 && |q| >= 1
    ensures Join(p + q, sep) == Join(p, sep) + [sep] + Join(q, sep)
  {
    if |p| == 1 {
      assert (p + q)[1..] == q;
    } else {
      JoinConcat(p[1..], q, sep);
      assert (p + q)[1..] == p[1..] + q;
    }
  }

  /** A symbol occurs in a text exactly when it occurs in one of its segments. */
  lemma {:induction false} SplitSymbol(s: string, sep: char, c: char)
    requires c != sep
    ensures c in s <==> exists i :: 0 <= i < |Split(s, sep)| && c in Split(s, sep)[i]
  {
    if s != [] {
      var rest, all := Split(s[1..], sep), Split(s, sep);
      SplitSymbol(s[1..], sep, c);
      assert s == [s[0]] + s[1..];
      if c in s {
        if s[0] == sep {
          var i :| 0 <= i < |rest| && c in rest[i];
          assert all[i + 1] == rest[i];
        } else if c == s[0] {
          assert c in all[0];
        } else {
          var i :| 0 <= i < |rest| && c in rest[i];
          assert rest[i] == all[i] || (i == 0 && all[0] == [s[0]] + rest[0]);
        }
      }
      forall i | 0 <= i < |all| && c in all[i] ensures c in s {
        if s[0] == sep {
          assert i > 0 && all[i] == rest[i - 1];
        } else if i > 0 {
          assert all[i] == rest[i];
        }
      }
    }
  }

  // ---------------------------------------------------------------- white space

  /** `unicode.IsSpace`. */
  predicate IsSpace(c: char) {
    || c == '\t' || c == '\n' || c == '\U{000B}' || c == '\U{000C}' || c == '\r' || c == ' '
    || c == '\U{0085}' || c == '\U{00A0}' || c == '\U{1680}'
    || '\U{2000}' <= c <= '\U{200A}' || c == '\U{2028}' || c == '\U{2029}'
    || c == '\U{202F}' || c == '\U{205F}' || c == '\U{3000}'
  }

  predicate AllSpace(s: string) { forall i :: 0 <= i < |s| ==> IsSpace(s[i]) }

  /** No white space at either end. */
  predicate Trimmed(s: string) { s == [] || (!IsSpace(s[0]) && !IsSpace(s[|s| - 1])) }

  function TrimLeft(s: string): string {
    if s != [] && IsSpace(s[0]) then TrimLeft(s[1..]) else s
  }

  function TrimRight(s: string): string {
    if s != [] && IsSpace(s[|s| - 1]) then TrimRight(s[..|s| - 1]) else s
  }

  function TrimSpace(s: string): string { TrimRight(TrimLeft(s)) }

  lemma {:induction false} TrimLeftPadded(pre: string, s: string)
    requires AllSpace(pre)
    ensures TrimLeft(pre + s) == TrimLeft(s)
  {
    if pre == [] {
      assert pre + s == s;
    } else {
      assert (pre + s)[1..] == pre[1..] + s;
      TrimLeftPadded(pre[1..], s);
    }
  }

  lemma {:induction false} TrimRightPadded(s: string, post: string)
    requires AllSpace(post)
    ensures TrimRight(s + post) == TrimRight(s)
  {
    if post == [] {
      assert s + post == s;
    } else {
      assert (s + post)[..|s + post| - 1] == s + post[..|post| - 1];
      TrimRightPadded(s, post[..|post| - 1]);
    }
  }

  /** White space below 0x80 is the six characters of ASCII; a zero-width space is none. */
  lemma WhiteSpace(c: char)
    ensures c < '\U{0080}' ==> (IsSpace(c) <==> c in "\t\n\U{000B}\U{000C}\r ")
    ensures IsSpace('\U{0085}') && IsSpace('\U{00A0}') && IsSpace('\U{2003}') && IsSpace('\U{3000}') && !IsSpace('\U{200B}')
  {
    var spaces := "\t\n\U{000B}\U{000C}\r ";
    assert spaces[0] == '\t' && spaces[1] == '\n' && spaces[2] == '\U{000B}' && spaces[3] == '\U{000C}'
           && spaces[4] == '\r' && spaces[5] == ' ';
  }

  /** Outer white space is removed and nothing else. */
  lemma TrimPadded(pre: string, body: string, post: string)
    requires AllSpace(pre) && AllSpace(post) && Trimmed(body)
    ensures TrimSpace(pre + body + post) == body
  {
    assert pre + body + post == pre + (body + post);
    TrimLeftPadded(pre, body + post);
    if body == [] {
      assert body + post == post + [];
      TrimLeftPadded(post, []);
    } else {
      TrimRightPadded(body, post);
    }
  }

  // ---------------------------------------------------------------- decimal numbers

  predicate IsDigit(c: char) { '0' <= c <= '9' }

  predicate AllDigits(s: string) { forall i :: 0 <= i < |s| ==> IsDigit(s[i]) }

  function DigitChar(d: nat): (c: char)
    requires d < 10
    ensures IsDigit(c)
  {
    '0' + d as char
  }

  function DigitVal(c: char): (d: nat)
    requires IsDigit(c)
    ensures d < 10
  {
    (c - '0') as nat
  }

  /** `%d` of a non-negative number. */
  function Dec(n: nat): (s: string)
    ensures |s| >= 1
  {
    if n < 10 then [DigitChar(n)] else Dec(n / 10) + [DigitChar(n % 10)]
  }

  /** The number a digit string denotes, most significant digit first. */
  function Val(s: string): nat
    requires AllDigits(s)
  {
    if s == [] then 0 else Val(s[..|s| - 1]) * 10 + DigitVal(s[|s| - 1])
  }

  function Pow10(n: nat): (p: nat)
    ensures p >= 1
  {
    if n == 0 then 1 else 10 * Pow10(n - 1)
  }

  lemma {:induction false} DecParsesBack(n: nat)
    ensures AllDigits(Dec(n)) && Val(Dec(n)) == n
  {
    if n < 10 {
      assert Dec(n)[..0] == [];
    } else {
      DecParsesBack(n / 10);
      assert Dec(n)[..|Dec(n)| - 1] == Dec(n / 10);
    }
  }

  lemma {:induction false} DecWidth(n: nat, width: nat)
    requires width >= 1 && n < Pow10(width)
    ensures |Dec(n)| <= width
  {
    if n >= 10 {
      assert width >= 2 by { assert Pow10(1) == 10 * Pow10(0); }
      assert n / 10 < Pow10(width - 1);
      DecWidth(n / 10, width - 1);
    }
  }

  function Zeros(n: nat): (s: string)
    ensures |s| == n && AllDigits(s)
  {
    if n == 0 then "" else "0" + Zeros(n - 1)
  }

  /** `%0*d`: decimal, left-padded with zeros to `width`. */
  function ZeroPad(width: nat, n: nat): string {
    PadTo(width, Dec(n))
  }

  function PadTo(width: nat, d: string): string {
    if |d| >= width then d else Zeros(width - |d|) + d
  }

  lemma {:induction false} ValZeros(k: nat, s: string)
    requires AllDigits(s)
    ensures AllDigits(Zeros(k) + s) && Val(Zeros(k) + s) == Val(s)
    decreases |s| + k
  {
    if s != [] {
      assert (Zeros(k) + s)[..|Zeros(k) + s| - 1] == Zeros(k) + s[..|s| - 1];
      ValZeros(k, s[..|s| - 1]);
    } else if k > 0 {
      ZerosSnoc(k - 1);
      assert Zeros(k) + s == Zeros(k - 1) + "0";
      assert (Zeros(k) + s)[..k - 1] == Zeros(k - 1) + [];
      ValZeros(k - 1, []);
    }
  }

  lemma {:induction false} ZerosSnoc(k: nat)
    ensures Zeros(k + 1) == Zeros(k) + "0"
  {
    if k > 0 {
      ZerosSnoc(k - 1);
    }
  }

  /** A zero-padded number that fits its width has exactly that width and reads back as itself. */
  lemma ZeroPadExact(width: nat, n: nat)
    requires width >= 1 && n < Pow10(width)
    ensures |ZeroPad(width, n)| == width && AllDigits(ZeroPad(width, n)) && Val(ZeroPad(width, n)) == n
  {
    DecParsesBack(n);
    DecWidth(n, width);
    if |Dec(n)| < width {
      ValZeros(width - |Dec(n)|, Dec(n));
    }
  }

  lemma {:induction false} Pow10Values()
    ensures Pow10(1) == 10 && Pow10(2) == 100 && Pow10(3) == 1000 && Pow10(4) == 10000 && Pow10(5) == 100000
    ensures Pow10(6) == 1000000 && Pow10(7) == 10000000 && Pow10(8) == 100000000 && Pow10(9) == 1000000000
    ensures Pow10(10) == 10000000000
  {
    assert Pow10(0) == 1;
    assert Pow10(3) == 10 * Pow10(2) && Pow10(2) == 10 * Pow10(1);
    assert Pow10(5) == 10 * Pow10(4) && Pow10(4) == 10 * Pow10(3);
    assert Pow10(7) == 10 * Pow10(6) && Pow10(6) == 10 * Pow10(5);
    assert Pow10(9) == 10 * Pow10(8) && Pow10(8) == 10 * Pow10(7);
  }

  // ---------------------------------------------------------------- scanning (`fmt.Sscanf`)

  /** Matches one literal run of the format. */
  function ScanLiteral(s: string, lit: string): Option<string> {
    if lit <= s then Some(s[|lit|..]) else None
  }

  function SkipBlanks(s: string): string {
    if s != [] && IsSpace(s[0]) && s[0] != '\n' then SkipBlanks(s[1..]) else s
  }

  /** Length of the longest leading run of digits. */
  function DigitRun(s: string): (n: nat)
    ensures n <= |s| && AllDigits(s[..n])
  {
    if s != [] && IsDigit(s[0]) then
      var m := DigitRun(s[1..]);
      assert s[..m + 1] == [s[0]] + s[1..][..m];
      m + 1
    else 0
  }

  /** `%d` into an unsigned field able to hold values below `bound`; trailing text is left over. */
  function ScanUint(s: string, bound: nat): Option<(nat, string)> {
    var t := SkipBlanks(s);
    var n := DigitRun(t);
    if n == 0 || Val(t[..n]) >= bound then None else Some((Val(t[..n]), t[n..]))
  }

  /** `%d` into a Go int: one optional sign, then digits that fit 64 bits. */
  function ScanInt(s: string): Option<(int, string)> {
    var t := SkipBlanks(s);
    var signed := t != [] && (t[0] == '+' || t[0] == '-');
    var u := if signed then t[1..] else t;
    var n := DigitRun(u);
    if n == 0 then None
    else
      var magnitude: int := Val(u[..n]);
      var v := if signed && t[0] == '-' then -magnitude else magnitude;
      if -0x8000_0000_0000_0000 <= v < 0x8000_0000_0000_0000 then Some((v, u[n..])) else None
  }

  lemma {:induction false} DigitRunOf(d: string, rest: string)
    requires AllDigits(d) && (rest == [] || !IsDigit(rest[0]))
    ensures DigitRun(d + rest) == |d|
  {
    if d == [] {
      assert d + rest == rest;
    } else {
      assert (d + rest)[1..] == d[1..] + rest;
      DigitRunOf(d[1..], rest);
    }
  }

  /** A printed number followed by a non-digit scans back to itself if the field can hold it, and leaves the rest. */
  lemma ScanPrinted(n: nat, rest: string, bound: nat)
    requires rest == [] || !IsDigit(rest[0])
    ensures ScanUint(Dec(n) + rest, bound) == if n < bound then Some((n, rest)) else None
    ensures n < 0x8000_0000_0000_0000 ==> ScanInt(Dec(n) + rest) == Some((n, rest))
  {
    DecParsesBack(n);
    var s := Dec(n) + rest;
    assert IsDigit(Dec(n)[0]) && s[0] == Dec(n)[0];
    assert SkipBlanks(s) == s;
    DigitRunOf(Dec(n), rest);
    assert s[..|Dec(n)|] == Dec(n) && s[|Dec(n)|..] == rest;
  }
}
