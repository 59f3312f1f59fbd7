/**
  User credentials (user/src/authentication.rs): a salted SHA-256 digest of the
  plain credential, checked against a candidate, and stored in a text column as
  the base64 text of a small big-endian frame.

  SHA-256 and base64 are library code and enter as function parameters: `sha256`
  maps the hashed bytes to the digest, `base64Encode` and `base64Decode` map frame
  bytes to text and back (the decoder's failure is `None`).
 */
module Authentication {
  import opened Wrappers
  import opened Types

  /** How the credential is hashed: SHA-256 over the plain bytes followed by the salt. */
  datatype HashType = Sha256WithSalt(salt: seq<byte>)

  /** The stored digest and the way it was made. */
  datatype UserCredential = UserCredential(data: seq<byte>, hashType: HashType)

  /** The frame's first field, written by `put_i32` and compared after `get_i32`. */
  const MAGIC: int := 0x35A256

  const U32_LIMIT: int := 0x1_0000_0000

  // ---------------------------------------------------------------------------
  // Hashing and validation
  // ---------------------------------------------------------------------------

  /** The digest a hash type gives for plain bytes. */
  function Digest(hashType: HashType, plain: seq<byte>, sha256: seq<byte> -> seq<byte>): seq<byte>
  {
    match hashType
    case Sha256WithSalt(salt) => sha256(plain + salt)
  }

  /** `UserCredential::new`: the digest of the plain credential under the given hash type. */
  function NewCredential(plain: seq<byte>, hashType: HashType, sha256: seq<byte> -> seq<byte>)
    : (c: UserCredential)
    ensures c.hashType == hashType
    ensures c.data == sha256(plain + hashType.salt)
  {
    UserCredential(Digest(hashType, plain, sha256), hashType)
  }

  /**
    `validate_credential`: the candidate hashes, with the stored salt, to the stored
    digest; that is, making a credential from the candidate under the stored hash
    type gives this very credential.
   */
  function ValidateCredential(c: UserCredential, plain: seq<byte>, sha256: seq<byte> -> seq<byte>): (ok: bool)
    ensures ok <==> NewCredential(plain, c.hashType, sha256) == c
  {
    Digest(c.hashType, plain, sha256) == c.data
  }

  /** A credential accepts the plain text it was made from. */
  lemma ValidateNew(plain: seq<byte>, salt: seq<byte>, sha256: seq<byte> -> seq<byte>)
    ensures ValidateCredential(NewCredential(plain, Sha256WithSalt(salt), sha256), plain, sha256)
  {
  }

  /**
    A credential accepts exactly the candidates whose salted digest equals that of
    the original plain text; with an injective hash, exactly the original.
   */
  lemma ValidateNewExactly(plain: seq<byte>, candidate: seq<byte>, salt: seq<byte>, sha256: seq<byte> -> seq<byte>)
    ensures ValidateCredential(NewCredential(plain, Sha256WithSalt(salt), sha256), candidate, sha256)
        <==> sha256(candidate + salt) == sha256(plain + salt)
    ensures (forall x, y :: sha256(x) == sha256(y) ==> x == y) ==>
      (ValidateCredential(NewCredential(plain, Sha256WithSalt(salt), sha256), candidate, sha256) <==> candidate == plain)
  {
    if (forall x, y :: sha256(x) == sha256(y) ==> x == y) && sha256(candidate + salt) == sha256(plain + salt) {
      assert candidate + salt == plain + salt;
      assert candidate == (candidate + salt)[..|candidate|];
      assert plain == (plain + salt)[..|plain|];
    }
  }

  // ---------------------------------------------------------------------------
  // Big-endian integers
  // ---------------------------------------------------------------------------

  /** The four big-endian bytes of a 32-bit value, as `put_u32` writes them. */
  function U32Bytes(n: nat): (r: seq<byte>)
    requires n < U32_LIMIT
    ensures |r| == 4
  {
    var n1 := n / 256;
    var n2 := n1 / 256;
    [n2 / 256, n2 % 256, n1 % 256, n % 256]
  }

  /** The value of four big-endian bytes, as `get_u32` reads them. */
  function U32Value(b: seq<byte>): (n: nat)
    requires |b| == 4
    ensures n < U32_LIMIT
  {
    var b0, b1, b2, b3: int := b[0], b[1], b[2], b[3];
    ((b0 * 256 + b1) * 256 + b2) * 256 + b3
  }

  /** The value of four big-endian bytes in two's complement, as `get_i32` reads them. */
  function I32Value(b: seq<byte>): (v: int)
    requires |b| == 4
    ensures -0x8000_0000 <= v < 0x8000_0000
    ensures v >= 0 ==> v == U32Value(b)
    ensures v < 0 ==> v == U32Value(b) - U32_LIMIT
  {
    if U32Value(b) < 0x8000_0000 then U32Value(b) else U32Value(b) - U32_LIMIT
  }

  /** Reading back the bytes written for a 32-bit value gives the value. */
  lemma U32RoundTrip(n: nat)
    requires n < U32_LIMIT
    ensures U32Value(U32Bytes(n)) == n
  {
    var n1 := n / 256;
    var n2 := n1 / 256;
    assert n == n1 * 256 + n % 256;
    assert n1 == n2 * 256 + n1 % 256;
    assert n2 == (n2 / 256) * 256 + n2 % 256;
  }

  /** Four bytes written for a 32-bit value read back as that value. */
  lemma ReadU32(b: seq<byte>, n: nat)
    requires n < U32_LIMIT && b == U32Bytes(n)
    ensures |b| == 4 && U32Value(b) == n
  {
    U32RoundTrip(n);
  }

  /** A length below 2^32 is written unchanged. */
  lemma SmallLength(n: nat)
    requires n < U32_LIMIT
    ensures n % U32_LIMIT == n
  {
  }

  /** The magic number reads back as itself. */
  lemma MagicRoundTrip()
    ensures I32Value(U32Bytes(MAGIC)) == MAGIC
  {
    U32RoundTrip(MAGIC);
  }

  // ---------------------------------------------------------------------------
  // The stored frame
  // ---------------------------------------------------------------------------

  /**
    The frame `to_db_data` encodes: the magic number, the salt's length and bytes,
    the digest's length and bytes. A length is written as `u32`, so one of 2^32
    bytes or more is written modulo 2^32.
   */
  function Frame(c: UserCredential): (r: seq<byte>)
    ensures |r| == 12 + |c.hashType.salt| + |c.data|
    ensures r[..4] == U32Bytes(MAGIC)
    ensures r[4..8] == U32Bytes(|c.hashType.salt| % U32_LIMIT)
    ensures r[8..8 + |c.hashType.salt|] == c.hashType.salt
    ensures r[8 + |c.hashType.salt|..12 + |c.hashType.salt|] == U32Bytes(|c.data| % U32_LIMIT)
    ensures r[12 + |c.hashType.salt|..] == c.data
  {
    var salt := c.hashType.salt;
    var r := U32Bytes(MAGIC) + U32Bytes(|salt| % U32_LIMIT) + salt + U32Bytes(|c.data| % U32_LIMIT) + c.data;
    assert r[..4] == U32Bytes(MAGIC);
    assert r[4..8] == U32Bytes(|salt| % U32_LIMIT);
    assert r[8..8 + |salt|] == salt;
    assert r[8 + |salt|..12 + |salt|] == U32Bytes(|c.data| % U32_LIMIT);
    assert r[12 + |salt|..] == c.data;
    r
  }

  /** `to_db_data`: the base64 text of the frame, built field by field into a buffer. */
  method ToDbData(c: UserCredential, base64Encode: seq<byte> -> string) returns (text: string)
    ensures text == base64Encode(Frame(c))
  {
    var buf: seq<byte> := [];
    match c.hashType {
      case Sha256WithSalt(salt) =>
        buf := buf + U32Bytes(MAGIC);
        buf := buf + U32Bytes(|salt| % U32_LIMIT);
        buf := buf + salt;
        buf := buf + U32Bytes(|c.data| % U32_LIMIT);
        buf := buf + c.data;
    }
    assert buf == Frame(c);
    text := base64Encode(buf);
  }

  /** Why `from_db_data` panics: the text is not base64, the frame ends early, or the magic is unknown. */
  datatype CredentialError = NotBase64 | BufferUnderflow | UnsupportedCredentialType

  /**
    The credential a frame holds. Reading past the end fails, a magic number other
    than 0x35A256 fails, and bytes after the digest are ignored.
   */
  function DecodeFrame(buf: seq<byte>): (r: Result<UserCredential, CredentialError>)
    ensures r.Success? ==> |buf| >= 12 + |r.value.hashType.salt| + |r.value.data|
    ensures r.Success? ==> buf[..4] == U32Bytes(MAGIC)
  {
    if |buf| < 4 then Failure(BufferUnderflow)
    else if I32Value(buf[..4]) != MAGIC then Failure(UnsupportedCredentialType)
    else if |buf| < 8 then Failure(BufferUnderflow)
    else
      var saltLen := U32Value(buf[4..8]);
      if |buf| < 12 + saltLen then Failure(BufferUnderflow)
      else
        var dataLen := U32Value(buf[8 + saltLen..12 + saltLen]);
        if |buf| < 12 + saltLen + dataLen then Failure(BufferUnderflow)
        else
          MagicBytes(buf[..4]);
          Success(UserCredential(buf[12 + saltLen..12 + saltLen + dataLen], Sha256WithSalt(buf[8..8 + saltLen])))
  }

  /** The only four bytes that read as the magic number are the ones written for it. */
  lemma MagicBytes(b: seq<byte>)
    requires |b| == 4 && I32Value(b) == MAGIC
    ensures b == U32Bytes(MAGIC)
  {
    assert U32Value(b) == MAGIC;
    assert b[3] == MAGIC % 256;
    assert b[2] == (MAGIC / 256) % 256;
    assert b[1] == (MAGIC / 65536) % 256;
    assert b[0] == 0;
  }

  /** `from_db_data`: base64-decode the stored text, then read the frame. */
  function FromDbData(text: string, base64Decode: string -> Option<seq<byte>>): (r: Result<UserCredential, CredentialError>)
    ensures base64Decode(text).None? ==> r == Failure(NotBase64)
    ensures r.Success? ==> base64Decode(text).Some? && Frame(r.value) <= base64Decode(text).value
  {
    match base64Decode(text)
    case None => Failure(NotBase64)
    case Some(buf) =>
      DecodeFrameReadsFrame(buf);
      DecodeFrame(buf)
  }

  /** Four bytes are the bytes written for the value they read as. */
  lemma U32BytesOfValue(b: seq<byte>)
    requires |b| == 4
    ensures U32Bytes(U32Value(b)) == b
  {
    var n := U32Value(b);
    var n1, n2 := n / 256, n / 256 / 256;
    assert n == ((b[0] as int * 256 + b[1] as int) * 256 + b[2] as int) * 256 + b[3] as int;
    assert n % 256 == b[3] as int && n1 == (b[0] as int * 256 + b[1] as int) * 256 + b[2] as int;
    assert n1 % 256 == b[2] as int && n2 == b[0] as int * 256 + b[1] as int;
    assert n2 % 256 == b[1] as int && n2 / 256 == b[0] as int;
  }

  /** The frame is the concatenation of its five fields. */
  lemma FrameParts(c: UserCredential)
    ensures Frame(c) == U32Bytes(MAGIC) + U32Bytes(|c.hashType.salt| % U32_LIMIT) + c.hashType.salt
                        + U32Bytes(|c.data| % U32_LIMIT) + c.data
  {
  }

  /** Five consecutive slices of a sequence make up its prefix. */
  lemma SplitPrefix(b: seq<byte>, i: nat, j: nat, k: nat, l: nat, m: nat)
    requires i <= j <= k <= l <= m <= |b|
    ensures b[..m] == b[..i] + b[i..j] + b[j..k] + b[k..l] + b[l..m]
  {
    assert b[..j] == b[..i] + b[i..j];
    assert b[..k] == b[..j] + b[j..k];
    assert b[..l] == b[..k] + b[k..l];
    assert b[..m] == b[..l] + b[l..m];
  }

  /**
    A decoded credential is exactly the frame it was read from: writing it again
    gives the bytes the decoder consumed.
   */
  lemma {:induction false} DecodeFrameReadsFrame(buf: seq<byte>)
    ensures DecodeFrame(buf).Success? ==> Frame(DecodeFrame(buf).value) <= buf
  {
    if |buf| < 8 || I32Value(buf[..4]) != MAGIC {
      return;
    }
    var saltLen := U32Value(buf[4..8]);
    if |buf| < 12 + saltLen {
      return;
    }
    var dataLen := U32Value(buf[8 + saltLen..12 + saltLen]);
    if |buf| < 12 + saltLen + dataLen {
      return;
    }
    var salt := buf[8..8 + saltLen];
    var data := buf[12 + saltLen..12 + saltLen + dataLen];
    var c := UserCredential(data, Sha256WithSalt(salt));
    assert DecodeFrame(buf) == Success(c);
    MagicBytes(buf[..4]);
    FrameOfFields(buf, saltLen, dataLen);
  }

  /** Bytes laid out as the five fields of a frame are the frame of the credential they carry. */
  lemma FrameOfFields(buf: seq<byte>, saltLen: nat, dataLen: nat)
    requires 12 + saltLen + dataLen <= |buf|
    requires buf[..4] == U32Bytes(MAGIC)
    requires saltLen == U32Value(buf[4..8]) && dataLen == U32Value(buf[8 + saltLen..12 + saltLen])
    ensures Frame(UserCredential(buf[12 + saltLen..12 + saltLen + dataLen], Sha256WithSalt(buf[8..8 + saltLen])))
         == buf[..12 + saltLen + dataLen]
  {
    var salt := buf[8..8 + saltLen];
    var data := buf[12 + saltLen..12 + saltLen + dataLen];
    var c := UserCredential(data, Sha256WithSalt(salt));
    U32BytesOfValue(buf[4..8]);
    U32BytesOfValue(buf[8 + saltLen..12 + saltLen]);
    assert |salt| % U32_LIMIT == saltLen && |data| % U32_LIMIT == dataLen;
    FrameParts(c);
    SplitPrefix(buf, 4, 8, 8 + saltLen, 12 + saltLen, 12 + saltLen + dataLen);
  }

  /** Decoding a frame gives back the credential, whatever bytes follow it, while both lengths fit in 32 bits. */
  lemma {:induction false} DecodeFrameRoundTrip(c: UserCredential, rest: seq<byte>)
    requires |c.hashType.salt| < U32_LIMIT && |c.data| < U32_LIMIT
    ensures DecodeFrame(Frame(c) + rest) == Success(c)
  {
    var salt := c.hashType.salt;
    var f := Frame(c);
    var buf := f + rest;
    var n := |salt|;
    assert buf[..4] == f[..4];
    MagicRoundTrip();
    assert I32Value(buf[..4]) == MAGIC;
    SmallLength(n);
    SmallLength(|c.data|);
    assert buf[4..8] == f[4..8];
    ReadU32(buf[4..8], n);
    assert buf[8 + n..12 + n] == f[8 + n..12 + n];
    ReadU32(buf[8 + n..12 + n], |c.data|);
    assert buf[8..8 + n] == f[8..8 + n];
    assert buf[12 + n..12 + n + |c.data|] == f[12 + n..];
  }

  /** Text written by `to_db_data` is read back by `from_db_data` as the same credential. */
  lemma DbDataRoundTrip(c: UserCredential, base64Encode: seq<byte> -> string, base64Decode: string -> Option<seq<byte>>)
    requires |c.hashType.salt| < U32_LIMIT && |c.data| < U32_LIMIT
    requires base64Decode(base64Encode(Frame(c))) == Some(Frame(c))
    ensures FromDbData(base64Encode(Frame(c)), base64Decode) == Success(c)
  {
    DecodeFrameRoundTrip(c, []);
    assert Frame(c) + [] == Frame(c);
  }

  /** A credential that was stored and read back still accepts its plain text. */
  lemma StoredCredentialValidates(plain: seq<byte>, salt: seq<byte>, sha256: seq<byte> -> seq<byte>,
                                  base64Encode: seq<byte> -> string, base64Decode: string -> Option<seq<byte>>)
    requires |salt| < U32_LIMIT && |sha256(plain + salt)| < U32_LIMIT
    requires var c := NewCredential(plain, Sha256WithSalt(salt), sha256);
      base64Decode(base64Encode(Frame(c))) == Some(Frame(c))
    ensures var c := NewCredential(plain, Sha256WithSalt(salt), sha256);
      FromDbData(base64Encode(Frame(c)), base64Decode).Success? &&
      ValidateCredential(FromDbData(base64Encode(Frame(c)), base64Decode).value, plain, sha256)
  {
    DbDataRoundTrip(NewCredential(plain, Sha256WithSalt(salt), sha256), base64Encode, base64Decode);
  }

  /** A frame whose first four bytes are not the magic number is rejected before any length is read. */
  lemma DecodeFrameBadMagic(buf: seq<byte>)
    requires |buf| >= 4 && I32Value(buf[..4]) != MAGIC
    ensures DecodeFrame(buf) == Failure(UnsupportedCredentialType)
  {
  }

  // ---------------------------------------------------------------------------
  // The read cursor
  // ---------------------------------------------------------------------------

  /** The `Bytes` buffer `from_db_data` reads from: its bytes and how many were consumed. */
  class ByteCursor {
    const bytes: seq<byte>
    var pos: nat

    predicate Valid()
      reads this
    {
      pos <= |bytes|
    }

    constructor(bytes: seq<byte>)
      ensures Valid() && this.bytes == bytes && pos == 0
    {
      this.bytes := bytes;
      pos := 0;
    }

    /** `get_u8`: the next byte, or `None` (the panic) when none is left. */
    method GetU8() returns (r: Option<byte>)
      requires Valid()
      modifies this
      ensures Valid()
      ensures old(pos) < |bytes| ==> r == Some(bytes[old(pos)]) && pos == old(pos) + 1
      ensures old(pos) == |bytes| ==> r.None? && pos == old(pos)
    {
      if pos == |bytes| {
        return None;
      }
      r := Some(bytes[pos]);
      pos := pos + 1;
    }

    /** `get_u32`: the next four bytes read big-endian, or `None` when fewer are left. */
    method GetU32() returns (r: Option<nat>)
      requires Valid()
      modifies this
      ensures Valid()
      ensures old(pos) + 4 <= |bytes| ==> r == Some(U32Value(bytes[old(pos)..old(pos) + 4])) && pos == old(pos) + 4
      ensures old(pos) + 4 > |bytes| ==> r.None?
    {
      if |bytes| - pos < 4 {
        return None;
      }
      r := Some(U32Value(bytes[pos..pos + 4]));
      pos := pos + 4;
    }

    /** `get_i32`: the next four bytes read big-endian in two's complement, or `None` when fewer are left. */
    method GetI32() returns (r: Option<int>)
      requires Valid()
      modifies this
      ensures Valid()
      ensures old(pos) + 4 <= |bytes| ==> r == Some(I32Value(bytes[old(pos)..old(pos) + 4])) && pos == old(pos) + 4
      ensures old(pos) + 4 > |bytes| ==> r.None?
    {
      if |bytes| - pos < 4 {
        return None;
      }
      r := Some(I32Value(bytes[pos..pos + 4]));
      pos := pos + 4;
    }

    /** The copy loop of `from_db_data`: `n` bytes, one `get_u8` at a time. */
    method CopyBytes(n: nat) returns (r: Option<seq<byte>>)
      requires Valid()
      modifies this
      ensures Valid()
      ensures old(pos) + n <= |bytes| ==> r == Some(bytes[old(pos)..old(pos) + n]) && pos == old(pos) + n
      ensures old(pos) + n > |bytes| ==> r.None?
    {
      var out: seq<byte> := [];
      ghost var start := pos;
      for i := 0 to n
        invariant Valid()
        invariant pos == start + i && pos <= |bytes|
        invariant out == bytes[start..pos]
      {
        var b := GetU8();
        if b.None? {
          return None;
        }
        out := out + [b.value];
      }
      return Some(out);
    }
  }

  /** The frame decoder of `from_db_data`, reading through a cursor. */
  method DecodeFrameFromCursor(buf: seq<byte>) returns (r: Result<UserCredential, CredentialError>)
    ensures r == DecodeFrame(buf)
  {
    var cursor := new ByteCursor(buf);
    var magic := cursor.GetI32();
    if magic.None? {
      return Failure(BufferUnderflow);
    }
    if magic.value != MAGIC {
      return Failure(UnsupportedCredentialType);
    }
    var saltLen := cursor.GetU32();
    if saltLen.None? {
      return Failure(BufferUnderflow);
    }
    var salt := cursor.CopyBytes(saltLen.value);
    if salt.None? {
      return Failure(BufferUnderflow);
    }
    var dataLen := cursor.GetU32();
    if dataLen.None? {
      return Failure(BufferUnderflow);
    }
    var data := cursor.CopyBytes(dataLen.value);
    if data.None? {
      return Failure(BufferUnderflow);
    }
    MagicBytes(buf[..4]);
    return Success(UserCredential(data.value, Sha256WithSalt(salt.value)));
  }
}
