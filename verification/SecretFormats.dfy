/** The two stored secret formats: Argon2id password hashes and AES-GCM sealed values. */
module SecretFormats {
  import opened Wrappers
  import opened Text
  import opened Base64
  import opened Arith

  // ---------------------------------------------------------------- crypto/argon2.go

  const ARGON2_VERSION: nat := 19
  const UINT32: nat := 0x1_0000_0000

  datatype Params = Params(memory: nat, iterations: nat, parallelism: nat)

  /** Argon2id as an uninterpreted function: password, salt, cost parameters, key length. */
  type Kdf = (string, Bytes, Params, nat) -> Bytes

  /** What `argon2.IDKey` guarantees about its result, whatever it computes. */
  ghost predicate KeyLengthLaw(kdf: Kdf) {
    forall pw, salt, p, n :: |kdf(pw, salt, p, n)| == n
  }

  /** The integer types of the fields of `crypto.Params`. */
  predicate InTypes(p: Params, keyLength: nat) {
    p.memory < UINT32 && p.iterations < UINT32 && p.parallelism < 256 && keyLength < UINT32
  }

  datatype HashError = InvalidHash | IncompatibleVersion | BadNumber | BadBase64

  /** Everything `VerifyPassword` recovers from a stored hash. */
  datatype Parsed = Parsed(params: Params, salt: Bytes, hash: Bytes)

  function PrintVersion(version: nat): string { "v=" + Dec(version) }

  function PrintParams(p: Params): string {
    "m=" + Dec(p.memory) + ",t=" + Dec(p.iterations) + ",p=" + Dec(p.parallelism)
  }

  function PrintFor(version: nat, p: Params, salt: Bytes, hash: Bytes): string {
    "$argon2id$" + PrintVersion(version) + "$" + PrintParams(p) + "$" + Encode(salt) + "$" + Encode(hash)
  }

  function PrintHash(p: Params, salt: Bytes, hash: Bytes): string { PrintFor(ARGON2_VERSION, p, salt, hash) }

  function HashPassword(kdf: Kdf, password: string, p: Params, salt: Bytes, keyLength: nat): string {
    PrintHash(p, salt, kdf(password, salt, p, keyLength))
  }

  /** `fmt.Sscanf(s, "m=%d,t=%d,p=%d", ...)` into two uint32 fields and a uint8 field. */
  function ScanParams(s: string): Option<Params> {
    match ScanLiteral(s, "m=")
    case None => None
    case Some(s1) =>
      match ScanUint(s1, UINT32)
      case None => None
      case Some((m, s2)) =>
        match ScanLiteral(s2, ",t=")
        case None => None
        case Some(s3) =>
          match ScanUint(s3, UINT32)
          case None => None
          case Some((t, s4)) =>
            match ScanLiteral(s4, ",p=")
            case None => None
            case Some(s5) =>
              match ScanUint(s5, 256)
              case None => None
              case Some((p, _)) => Some(Params(m, t, p))
  }

  function ScanVersion(s: string): Option<int> {
    match ScanLiteral(s, "v=")
    case None => None
    case Some(rest) =>
      match ScanInt(rest)
      case None => None
      case Some((v, _)) => Some(v)
  }

  function ParseFields(parts: seq<string>): Result<Parsed, HashError>
    requires |parts| == 6
  {
    match ScanParams(parts[3])
    case None => Err(BadNumber)
    case Some(p) =>
      match Decode(parts[4])
      case None => Err(BadBase64)
      case Some(salt) =>
        match Decode(parts[5])
        case None => Err(BadBase64)
        case Some(hash) => Ok(Parsed(p, salt, hash))
  }

  function ParseHash(encoded: string): Result<Parsed, HashError> {
    var parts := Split(encoded, '$');
    if |parts| != 6 || parts[1] != "argon2id" then Err(InvalidHash)
    else
      match ScanVersion(parts[2])
      case None => Err(BadNumber)
      case Some(version) => if version != ARGON2_VERSION then Err(IncompatibleVersion) else ParseFields(parts)
  }

  /** The key length asked of Argon2 is the decoded length truncated to uint32. */
  function VerifyPassword(kdf: Kdf, password: string, encoded: string): Result<bool, HashError> {
    Verdict(kdf, password, ParseHash(encoded))
  }

  function Verdict(kdf: Kdf, password: string, parsed: Result<Parsed, HashError>): Result<bool, HashError> {
    match parsed
    case Err(e) => Err(e)
    case Ok(h) => Ok(h.hash == kdf(password, h.salt, h.params, |h.hash| % UINT32))
  }

  lemma {:induction false} DecHasNo(n: nat, c: char)
    requires !IsDigit(c)
    ensures c !in Dec(n)
  {
    DecParsesBack(n);
  }

  lemma EncodeHasNo(b: Bytes, c: char)
    requires SextetOf(c).None?
    ensures c !in Encode(b)
  {
    EncodeInAlphabet(b);
  }

  /** One `name=%d` field at the front of a text scans to its number. */
  lemma ScanField(lit: string, n: nat, rest: string, bound: nat)
    requires rest == [] || !IsDigit(rest[0])
    ensures ScanLiteral(lit + (Dec(n) + rest), lit) == Some(Dec(n) + rest)
    ensures ScanUint(Dec(n) + rest, bound) == if n < bound then Some((n, rest)) else None
  {
    assert (lit + (Dec(n) + rest))[|lit|..] == Dec(n) + rest;
    ScanPrinted(n, rest, bound);
  }

  lemma ScanPrintedParams(p: Params)
    ensures ScanParams(PrintParams(p)) == if InTypes(p, 0) then Some(p) else None
  {
    var s4 := ",p=" + (Dec(p.parallelism) + "");
    var s2 := ",t=" + (Dec(p.iterations) + s4);
    var s0 := "m=" + (Dec(p.memory) + s2);
    assert PrintParams(p) == s0;
    ScanField("m=", p.memory, s2, UINT32);
    ScanField(",t=", p.iterations, s4, UINT32);
    ScanField(",p=", p.parallelism, "", 256);
  }

  lemma ScanPrintedVersion(version: nat)
    requires version < UINT32
    ensures ScanVersion(PrintVersion(version)) == Some(version)
  {
    assert PrintVersion(version)[2..] == Dec(version) + "";
    ScanPrinted(version, "", UINT32);
  }

  lemma JoinTwo(head: string, rest: seq<string>)
    requires rest != []
    ensures Join([head] + rest, '$') == head + "$" + Join(rest, '$')
  {
    assert ([head] + rest)[1..] == rest;
  }

  /** The printed text is its six fields joined by '$'. */
  lemma SixFields(v: string, m: string, s: string, h: string)
    ensures "$argon2id$" + v + "$" + m + "$" + s + "$" + h == Join(["", "argon2id", v, m, s, h], '$')
  {
    var f4, f3, f2, f1 := [h], [s, h], [m, s, h], [v, m, s, h];
    assert Join(f4, '$') == h;
    JoinTwo(s, f4);
    assert [s] + f4 == f3;
    JoinTwo(m, f3);
    assert [m] + f3 == f2;
    JoinTwo(v, f2);
    assert [v] + f2 == f1;
    JoinTwo("argon2id", f1);
    JoinTwo("", ["argon2id"] + f1);
    assert [""] + (["argon2id"] + f1) == ["", "argon2id", v, m, s, h];
    assert "$argon2id$" == "" + "$" + ("argon2id" + "$");
  }

  lemma PrintedFields(version: nat, p: Params, salt: Bytes, hash: Bytes)
    ensures Split(PrintFor(version, p, salt, hash), '$')
         == ["", "argon2id", PrintVersion(version), PrintParams(p), Encode(salt), Encode(hash)]
  {
    DecHasNo(version, '$');
    DecHasNo(p.memory, '$');
    DecHasNo(p.iterations, '$');
    DecHasNo(p.parallelism, '$');
    EncodeHasNo(salt, '$');
    EncodeHasNo(hash, '$');
    SixFields(PrintVersion(version), PrintParams(p), Encode(salt), Encode(hash));
    SplitJoin(["", "argon2id", PrintVersion(version), PrintParams(p), Encode(salt), Encode(hash)], '$');
  }

  /**
   * The parser recovers exactly what the printer was given, refuses every other version of Argon2, and refuses
   * parameters that their integer types cannot hold.
   */
  lemma ParsePrintedHash(version: nat, p: Params, salt: Bytes, hash: Bytes)
    requires version < UINT32
    ensures ParseHash(PrintFor(version, p, salt, hash)) ==
              if version != 19 then Err(IncompatibleVersion)
              else if p.memory < 0x1_0000_0000 && p.iterations < 0x1_0000_0000 && p.parallelism < 256 then
                Ok(Parsed(p, salt, hash))
              else Err(BadNumber)
  {
    var parts := Split(PrintFor(version, p, salt, hash), '$');
    PrintedFields(version, p, salt, hash);
    assert |parts| == 6 && parts[1] == "argon2id" && parts[2] == PrintVersion(version);
    ScanPrintedVersion(version);
    ScanPrintedParams(p);
    DecodeEncode(salt);
    DecodeEncode(hash);
  }

  /** Whatever is accepted has six fields, names argon2id and version 19, and decodes to what is returned. */
  lemma AcceptedHashes(encoded: string)
    ensures ParseHash(encoded) == Err(InvalidHash) <==>
              |Split(encoded, '$')| != 6 || Split(encoded, '$')[1] != "argon2id"
    ensures ParseHash(encoded).Ok? ==>
              var parts, h := Split(encoded, '$'), ParseHash(encoded).value;
              && |parts| == 6 && parts[1] == "argon2id" && ScanVersion(parts[2]) == Some(19)
              && ScanParams(parts[3]) == Some(h.params) && Decode(parts[4]) == Some(h.salt) && Decode(parts[5]) == Some(h.hash)
  {
  }

  /** The stored text, letter by letter. */
  lemma PrintedText(p: Params, salt: Bytes, hash: Bytes)
    ensures PrintHash(p, salt, hash) ==
              "$argon2id$v=19$" + ("m=" + Dec(p.memory) + ",t=" + Dec(p.iterations) + ",p=" + Dec(p.parallelism))
              + "$" + Encode(salt) + "$" + Encode(hash)
  {
    assert Dec(1) == "1" && Dec(19) == "19";
    assert PrintVersion(19) == "v=19";
    assert "$argon2id$" + "v=19" + "$" == "$argon2id$v=19$";
  }

  lemma VerdictOnPrinted(kdf: Kdf, attempt: string, p: Params, salt: Bytes, hash: Bytes)
    requires InTypes(p, |hash|)
    ensures VerifyPassword(kdf, attempt, PrintHash(p, salt, hash)) == Ok(hash == kdf(attempt, salt, p, |hash|))
  {
    var encoded := PrintHash(p, salt, hash);
    assert ParseHash(encoded) == Ok(Parsed(p, salt, hash)) by { ParsePrintedHash(ARGON2_VERSION, p, salt, hash); }
    SmallRemainder(|hash|, UINT32);
  }

  /**
   * Checking any password against a printed hash never errors, and accepts it exactly when Argon2
   * maps both passwords to the same key; in particular the hashed password itself is accepted.
   */
  lemma VerifyHashedPassword(kdf: Kdf, password: string, attempt: string, p: Params, salt: Bytes, keyLength: nat)
    requires KeyLengthLaw(kdf) && InTypes(p, keyLength)
    ensures VerifyPassword(kdf, attempt, HashPassword(kdf, password, p, salt, keyLength))
         == Ok(kdf(password, salt, p, keyLength) == kdf(attempt, salt, p, keyLength))
    ensures VerifyPassword(kdf, password, HashPassword(kdf, password, p, salt, keyLength)) == Ok(true)
  {
    var hash := kdf(password, salt, p, keyLength);
    assert |hash| == keyLength;
    VerdictOnPrinted(kdf, attempt, p, salt, hash);
    VerdictOnPrinted(kdf, password, p, salt, hash);
  }

  // ---------------------------------------------------------------- crypto/aesgcm.go

  const NONCE_SIZE: nat := 12
  const SEAL_VERSION := "v1"

  /** The AEAD as a pair of uninterpreted functions over nonce, text and associated data. */
  datatype Aead = Aead(seal: (Bytes, string, string) -> Bytes, open: (Bytes, Bytes, string) -> Option<string>)

  /** Opening what was sealed under the same nonce and context gives the plaintext back. */
  ghost predicate OpenLaw(a: Aead) {
    forall n, p, c :: a.open(n, a.seal(n, p, c), c) == Some(p)
  }

  /** An ideal authenticated cipher rejects a ciphertext presented with other associated data. */
  ghost predicate ContextLaw(a: Aead) {
    forall n, p, c, c' :: c != c' ==> a.open(n, a.seal(n, p, c), c') == None
  }

  datatype SealError = Malformed | OpenFailed

  function Seal(a: Aead, nonce: Bytes, plaintext: string, context: string): string {
    SEAL_VERSION + ":" + Encode(nonce + a.seal(nonce, plaintext, context))
  }

  /** `strings.Cut(s, ":")`: the text before and after the first colon. */
  function Cut(s: string): Option<(string, string)> {
    if s == [] then None
    else if s[0] == ':' then Some(("", s[1..]))
    else
      match Cut(s[1..])
      case None => None
      case Some((before, after)) => Some(([s[0]] + before, after))
  }

  function Open(a: Aead, sealed: string, context: string): Result<string, SealError> {
    match Cut(sealed)
    case None => Err(Malformed)
    case Some((version, payload)) =>
      if version != SEAL_VERSION then Err(Malformed)
      else
        match Decode(payload)
        case None => Err(Malformed)
        case Some(raw) =>
          if |raw| < NONCE_SIZE then Err(Malformed)
          else
            match a.open(raw[..NONCE_SIZE], raw[NONCE_SIZE..], context)
            case None => Err(OpenFailed)
            case Some(plaintext) => Ok(plaintext)
  }

  lemma CutPrinted(payload: string)
    ensures Cut(SEAL_VERSION + ":" + payload) == Some((SEAL_VERSION, payload))
  {
    var s2 := ":" + payload;
    var s1 := "1" + s2;
    var s := "v" + s1;
    assert s == SEAL_VERSION + ":" + payload;
    assert s2[1..] == payload && s1[1..] == s2 && s[1..] == s1;
    assert Cut(s2) == Some(("", payload));
    assert Cut(s1) == Some((['1'] + "", payload));
    assert ['1'] + "" == "1";
    assert Cut(s) == Some((['v'] + "1", payload));
    assert ['v'] + "1" == SEAL_VERSION;
  }

  /** The sealed text is cut, decoded and split into exactly the nonce and ciphertext that went in. */
  lemma OpenReachesCipher(a: Aead, nonce: Bytes, plaintext: string, context: string, context': string)
    requires |nonce| == NONCE_SIZE
    ensures Open(a, Seal(a, nonce, plaintext, context), context')
         == match a.open(nonce, a.seal(nonce, plaintext, context), context')
            case None => Err(OpenFailed)
            case Some(p) => Ok(p)
  {
    var ct := a.seal(nonce, plaintext, context);
    var payload := Encode(nonce + ct);
    var sealed := Seal(a, nonce, plaintext, context);
    CutPrinted(payload);
    DecodeEncode(nonce + ct);
    assert (nonce + ct)[..NONCE_SIZE] == nonce && (nonce + ct)[NONCE_SIZE..] == ct;
  }

  lemma {:induction false} CutIs(s: string)
    ensures Cut(s).Some? ==> s == Cut(s).value.0 + ":" + Cut(s).value.1
  {
    if s != [] && s[0] != ':' {
      CutIs(s[1..]);
      if Cut(s[1..]).Some? {
        var (before, after) := Cut(s[1..]).value;
        assert s == [s[0]] + (before + ":" + after);
        assert [s[0]] + (before + ":" + after) == ([s[0]] + before) + ":" + after;
      }
    }
  }

  /** What opens: the version prefix, base64 of at least a nonce, and a ciphertext the cipher accepts in this context. */
  lemma OpenIff(a: Aead, sealed: string, context: string)
    ensures Open(a, sealed, context) ==
              if "v1:" <= sealed && Decode(sealed[3..]).Some? && |Decode(sealed[3..]).value| >= 12 then
                var raw := Decode(sealed[3..]).value;
                var plain := a.open(raw[..12], raw[12..], context);
                if plain.Some? then Ok(plain.value) else Err(OpenFailed)
              else Err(Malformed)
  {
    if "v1:" <= sealed {
      assert sealed == SEAL_VERSION + ":" + sealed[3..];
      CutPrinted(sealed[3..]);
    } else {
      CutIs(sealed);
    }
  }

  /** A sealed value opens to its plaintext in its own row and in no other row. */
  lemma SealedValueIsBoundToItsRow(a: Aead, nonce: Bytes, plaintext: string, context: string, context': string)
    requires |nonce| == NONCE_SIZE && OpenLaw(a) && ContextLaw(a)
    ensures Open(a, Seal(a, nonce, plaintext, context), context) == Ok(plaintext)
    ensures Open(a, Seal(a, nonce, plaintext, context), context').Ok? <==> context' == context
  {
    OpenReachesCipher(a, nonce, plaintext, context, context);
    OpenReachesCipher(a, nonce, plaintext, context, context');
  }
}
