/** RFC 6238 time-based codes over the RFC 4226 HOTP function (internal/mfa/totp.go). */
module Totp {
  import opened Wrappers
  import opened Text
  import opened Base64
  import opened Arith

  const PERIOD: nat := 30
  const DIGITS: nat := 6
  const SKEW: int := 1
  const UINT64: nat := 0x1_0000_0000_0000_0000

  type Word64 = n: int | 0 <= n < 0x1_0000_0000_0000_0000

  /** SHA-1 digests are 20 bytes. */
  type Digest = b: Bytes | |b| == 20 witness seq(20, _ => 0)

  /** HMAC-SHA1 as an uninterpreted function of key and message. */
  type Mac = (Bytes, Bytes) -> Digest

  /** Unpadded base32 decoding of an already trimmed and upper-cased secret. */
  type Base32 = string -> Option<Bytes>

  /** The low `k` bytes of `n`, most significant first. */
  function BigEndian(n: nat, k: nat): (b: Bytes)
    ensures |b| == k
  {
    if k == 0 then [] else BigEndian(n / 256, k - 1) + [n % 256]
  }

  function Uint32At(b: Bytes, i: nat): (v: nat)
    requires i + 4 <= |b|
    ensures v < 0x1_0000_0000
  {
    b[i] as int * 0x100_0000 + b[i + 1] as int * 0x1_0000 + b[i + 2] as int * 0x100 + b[i + 3] as int
  }

  /** Dynamic truncation: the low nibble of the last byte picks a window whose top bit is dropped. */
  function Truncate(sum: Digest): (v: nat)
    ensures v < 0x8000_0000
  {
    Uint32At(sum, sum[19] % 16) % 0x8000_0000
  }

  function Generate(mac: Mac, key: Bytes, counter: Word64): string {
    ZeroPad(DIGITS, Truncate(mac(key, BigEndian(counter, 8))) % Pow10(DIGITS))
  }

  /** The HOTP function with its eight-byte buffer and its modulus loop. */
  method GenerateCode(mac: Mac, key: Bytes, counter: Word64) returns (code: string)
    ensures code == Generate(mac, key, counter)
  {
    var buf := new Byte[8](_ => 0);
    var rest: nat := counter;
    for i := 0 to 8
      invariant BigEndian(counter, 8) == BigEndian(rest, 8 - i) + buf[8 - i..]
    {
      assert BigEndian(rest, 8 - i) == BigEndian(rest / 256, 8 - i - 1) + [rest % 256];
      buf[8 - i - 1] := rest % 256;
      rest := rest / 256;
      assert buf[8 - i - 1..] == [buf[8 - i - 1]] + buf[8 - i..];
    }
    assert buf[..] == BigEndian(counter, 8);
    var sum := mac(key, buf[..]);
    var offset := sum[|sum| - 1] % 16;
    var value := Uint32At(sum, offset) % 0x8000_0000;
    var modulus := 1;
    for i := 0 to DIGITS
      invariant modulus == Pow10(i)
    {
      modulus := modulus * 10;
    }
    code := ZeroPad(DIGITS, value % modulus);
  }

  /** The bytes of a number that fits them denote it. */
  lemma {:induction false} BigEndianValue(n: nat, k: nat)
    requires n < Pow2(8 * k)
    ensures BytesValue(BigEndian(n, k)) == n
  {
    if k > 0 {
      assert Pow2(8 * k) == 256 * Pow2(8 * (k - 1)) by {
        Pow2Sum(8, 8 * (k - 1));
        Pow2Values();
      }
      BigEndianValue(n / 256, k - 1);
    }
  }

  lemma TruncatedWindow(sum: Digest)
    ensures var o := sum[19] % 16; Truncate(sum) == BytesValue([sum[o] % 128, sum[o + 1], sum[o + 2], sum[o + 3]])
  {
    var o := sum[19] % 16;
    var high, low: nat := sum[o], sum[o + 1] as int * 0x1_0000 + sum[o + 2] as int * 0x100 + sum[o + 3] as int;
    assert high == high / 128 * 128 + high % 128;
    assert Uint32At(sum, o) == high / 128 * 0x8000_0000 + (high % 128 * 0x100_0000 + low);
    FourBytes(high % 128, sum[o + 1], sum[o + 2], sum[o + 3]);
  }

  /**
   * Every generated code is six digits. They denote, modulo a million, the four bytes of the MAC that its last
   * nibble points at, less their top bit; the MAC is taken of the eight bytes that denote the counter.
   */
  lemma GeneratedCodeShape(mac: Mac, key: Bytes, counter: Word64)
    ensures var code, message := Generate(mac, key, counter), BigEndian(counter, 8);
            var sum := mac(key, message);
            var o := sum[19] % 16;
            && |message| == 8 && BytesValue(message) == counter
            && |code| == 6 && AllDigits(code) && Trimmed(code)
            && Val(code) == BytesValue([sum[o] % 128, sum[o + 1], sum[o + 2], sum[o + 3]]) % 1000000
  {
    var sum := mac(key, BigEndian(counter, 8));
    CounterBytes(counter);
    TruncatedWindow(sum);
    Pow10Values();
    ZeroPadExact(DIGITS, Truncate(sum) % Pow10(DIGITS));
  }

  lemma CounterBytes(counter: Word64)
    ensures BytesValue(BigEndian(counter, 8)) == counter
  {
    Pow2Sum(32, 32);
    Pow2Values();
    BigEndianValue(counter, 8);
  }

  /** The worked example of section 5.4 of RFC 4226. */
  lemma ExampleOfRfc4226()
    ensures var sum: Digest := [0x1f, 0x86, 0x98, 0x69, 0x0e, 0x02, 0xca, 0x16, 0x61, 0x85,
                        0x50, 0xef, 0x7f, 0x19, 0xda, 0x8e, 0x94, 0x5b, 0x55, 0x5a];
            Truncate(sum) == 0x50ef7f19 && Truncate(sum) % 1000000 == 872921
  {
  }

  /** `uint64(at.Unix()) / 30`: negative times wrap before the division. */
  function Counter(at: int): (c: Word64)
    ensures c <= UINT64 / PERIOD
  {
    at % UINT64 / PERIOD
  }

  /** `uint64(int64(counter) + offset)`. */
  function Shift(counter: Word64, offset: int): Word64 { (counter + offset) % UINT64 }

  function SecretKey(decode: Base32, upper: string -> string, secret: string): Option<Bytes> {
    decode(upper(TrimSpace(secret)))
  }

  function Code(mac: Mac, decode: Base32, upper: string -> string, secret: string, at: int): Option<string> {
    match SecretKey(decode, upper, secret)
    case None => None
    case Some(key) => Some(Generate(mac, key, Counter(at)))
  }

  ghost predicate Matches(mac: Mac, key: Bytes, code: string, counter: Word64, offset: int) {
    code == Generate(mac, key, Shift(counter, offset))
  }

  /** What a login or an enrolment accepts at time `at`. */
  ghost predicate Accepts(mac: Mac, decode: Base32, upper: string -> string, secret: string, code: string, at: int) {
    && SecretKey(decode, upper, secret).Some?
    && exists offset :: -1 <= offset <= 1
         && Matches(mac, SecretKey(decode, upper, secret).value, TrimSpace(code), Counter(at), offset)
  }

  /** The comparison runs over the whole window and accumulates, never stopping early. */
  method MatchWindow(mac: Mac, key: Bytes, code: string, counter: Word64) returns (matched: bool)
    ensures matched <==> exists o :: -1 <= o <= 1 && Matches(mac, key, code, counter, o)
  {
    matched := false;
    var offset := -SKEW;
    while offset <= SKEW
      invariant -1 <= offset <= 2
      invariant matched <==> exists o :: -1 <= o < offset && Matches(mac, key, code, counter, o)
    {
      var candidate := GenerateCode(mac, key, Shift(counter, offset));
      assert candidate == code <==> Matches(mac, key, code, counter, offset);
      matched := matched || candidate == code;
      offset := offset + 1;
    }
  }

  method Validate(mac: Mac, decode: Base32, upper: string -> string, secret: string, code: string, at: int)
    returns (ok: bool)
    ensures ok <==> Accepts(mac, decode, upper, secret, code, at)
    ensures ok <==>
              && decode(upper(TrimSpace(secret))).Some?
              && exists o :: -1 <= o <= 1 && TrimSpace(code)
                               == Generate(mac, decode(upper(TrimSpace(secret))).value, Shift(Counter(at), o))
  {
    var trimmed := TrimSpace(code);
    var key := SecretKey(decode, upper, secret);
    assert key == decode(upper(TrimSpace(secret)));
    assert key.Some? ==> forall o :: Matches(mac, key.value, trimmed, Counter(at), o)
                                     <==> trimmed == Generate(mac, key.value, Shift(Counter(at), o));
    if |trimmed| != DIGITS {
      if Accepts(mac, decode, upper, secret, code, at) {
        var o :| -1 <= o <= 1 && Matches(mac, key.value, trimmed, Counter(at), o);
        GeneratedCodeShape(mac, key.value, Shift(Counter(at), o));
      }
      return false;
    }
    if key.None? {
      return false;
    }
    ok := MatchWindow(mac, key.value, trimmed, Counter(at));
  }

  /** The only counters a code is compared with: now and its two neighbours, times before 1970 counting from 2^64. */
  lemma WindowIsThreeCounters(at: int, offset: int)
    requires -0x8000_0000_0000_0000 <= at < 0x8000_0000_0000_0000 && -1 <= offset <= 1
    ensures Shift(Counter(at), offset) ==
              if at < 0 then (at + 0x1_0000_0000_0000_0000) / 30 + offset
              else if at >= 30 || offset >= 0 then at / 30 + offset else 0x1_0000_0000_0000_0000 - 1
  {
    assert at % UINT64 == if at < 0 then at + UINT64 else at;
  }

  /** Times at most one period apart are at most one counter apart, and two periods apart at least two. */
  lemma CounterDistance(t: int, t': int)
    requires 0 <= t < 0x8000_0000_0000_0000 && 0 <= t' < 0x8000_0000_0000_0000
    ensures -30 <= t - t' <= 30 ==>
              exists offset :: -1 <= offset <= 1 && Shift(Counter(t'), offset) == Counter(t)
    ensures t - t' <= -60 || 60 <= t - t' ==>
              forall offset :: -1 <= offset <= 1 ==> Shift(Counter(t'), offset) != Counter(t)
  {
    WindowIsThreeCounters(t, 0);
    WindowIsThreeCounters(t', -1);
    WindowIsThreeCounters(t', 0);
    WindowIsThreeCounters(t', 1);
    var d := t / 30 - t' / 30;
    if -30 <= t - t' <= 30 {
      assert -1 <= d <= 1;
      assert Shift(Counter(t'), d) == Counter(t);
    }
  }

  /**
   * Drift tolerance: a code shown at `t` is accepted at every `t'` at most 30 seconds away, typed with
   * any white space around it; 60 seconds away its own counter is outside the window.
   */
  lemma CodeValidWithinOnePeriod(mac: Mac, decode: Base32, upper: string -> string, secret: string,
                                 t: int, t': int, pre: string, post: string)
    requires 0 <= t < 0x8000_0000_0000_0000 && 0 <= t' < 0x8000_0000_0000_0000
    requires Code(mac, decode, upper, secret, t).Some? && AllSpace(pre) && AllSpace(post)
    ensures -30 <= t - t' <= 30 ==>
              Accepts(mac, decode, upper, secret, pre + Code(mac, decode, upper, secret, t).value + post, t')
    ensures t - t' <= -60 || 60 <= t - t' ==>
              forall offset :: -1 <= offset <= 1 ==> Shift(Counter(t'), offset) != Counter(t)
  {
    var key := SecretKey(decode, upper, secret).value;
    var code := Generate(mac, key, Counter(t));
    GeneratedCodeShape(mac, key, Counter(t));
    TrimPadded(pre, code, post);
    CounterDistance(t, t');
    if -30 <= t - t' <= 30 {
      var d :| -1 <= d <= 1 && Shift(Counter(t'), d) == Counter(t);
      assert Matches(mac, key, code, Counter(t'), d);
    }
  }
}
