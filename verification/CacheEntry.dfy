/** The bytes of a cached graph on disk (crates/workspace/src/cache.rs): a keyed header, then the body. */
module CacheEntry {
  import opened Numbers
  import opened Results
  import opened TextPosition

  const CACHE_MAGIC := 0xC0DE_2106
  const CACHE_FORMAT_VERSION := 9
  const OFF_FORMAT := 4
  const OFF_MTIME := 8
  const OFF_SIZE := 16
  const OFF_ANCHOR := 24
  const OFF_CONTEXT := 32
  const OFF_PATH_LEN := 40
  const HEADER_FIXED := OFF_PATH_LEN + 4

  type Bytes = seq<byte>

  datatype Key = Key(path: Bytes, mtime: nat, size: nat, anchor: nat, context: nat)

  /** The numbers are 64-bit. */
  predicate KeyInRange(key: Key) {
    key.mtime < U64 && key.size < U64 && key.anchor < U64 && key.context < U64
  }

  /** `u32::to_le_bytes`. */
  function Bytes32(n: nat): (bytes: Bytes)
    requires n < U32
    ensures |bytes| == 4 && Value32(bytes) == n
  {
    var q := n / 256;
    var r := q / 256;
    var s := r / 256;
    assert n == 256 * q + n % 256 && q == 256 * r + q % 256 && r == 256 * s + r % 256;
    [(n % 256) as byte, (q % 256) as byte, (r % 256) as byte, s as byte]
  }

  /** `u32::from_le_bytes`. */
  function Value32(b: Bytes): nat
    requires |b| == 4
  {
    b[0] as nat + 256 * b[1] as nat + 0x1_0000 * b[2] as nat + 0x100_0000 * b[3] as nat
  }

  /** `u64::to_le_bytes`. */
  function Bytes64(n: nat): (r: Bytes)
    requires n < U64
    ensures |r| == 8 && Value64(r) == n
  {
    var low, high := Bytes32(n % U32), Bytes32(n / U32);
    assert (low + high)[..4] == low && (low + high)[4..] == high;
    low + high
  }

  /** `u64::from_le_bytes`. */
  function Value64(b: Bytes): nat
    requires |b| == 8
  {
    Value32(b[..4]) + U32 * Value32(b[4..])
  }

  function Header(key: Key): (h: Bytes)
    requires KeyInRange(key)
    ensures |h| == HEADER_FIXED
  {
    Bytes32(CACHE_MAGIC) + Bytes32(CACHE_FORMAT_VERSION)
    + Bytes64(key.mtime) + Bytes64(key.size)
    + Bytes64(key.anchor) + Bytes64(key.context)
    + Bytes32(|key.path| % U32)
  }

  function Entry(key: Key, body: Bytes): Bytes
    requires KeyInRange(key)
  {
    Header(key) + key.path + body
  }

  /** `validate_header`: the body, if the header is this key's. */
  function ValidateHeader(bytes: Bytes, key: Key): Option<Bytes> {
    if |bytes| < HEADER_FIXED then None
    else if Value32(bytes[0..OFF_FORMAT]) != CACHE_MAGIC then None
    else if Value32(bytes[OFF_FORMAT..OFF_MTIME]) != CACHE_FORMAT_VERSION then None
    else if Value64(bytes[OFF_MTIME..OFF_SIZE]) != key.mtime || Value64(bytes[OFF_SIZE..OFF_ANCHOR]) != key.size
            || Value64(bytes[OFF_ANCHOR..OFF_CONTEXT]) != key.anchor
            || Value64(bytes[OFF_CONTEXT..OFF_PATH_LEN]) != key.context then None
    else
      var end := HEADER_FIXED + Value32(bytes[OFF_PATH_LEN..HEADER_FIXED]);
      if end > |bytes| || bytes[HEADER_FIXED..end] != key.path then None else Some(bytes[end..])
  }

  /** The fixed-width fields at the front of the bytes hold this key's values and this path length. */
  predicate FieldsAre(b: Bytes, key: Key, length: nat)
    requires |b| >= HEADER_FIXED
  {
    && Value32(b[0..OFF_FORMAT]) == CACHE_MAGIC && Value32(b[OFF_FORMAT..OFF_MTIME]) == CACHE_FORMAT_VERSION
    && Value64(b[OFF_MTIME..OFF_SIZE]) == key.mtime && Value64(b[OFF_SIZE..OFF_ANCHOR]) == key.size
    && Value64(b[OFF_ANCHOR..OFF_CONTEXT]) == key.anchor && Value64(b[OFF_CONTEXT..OFF_PATH_LEN]) == key.context
    && Value32(b[OFF_PATH_LEN..HEADER_FIXED]) == length
  }

  /** The bytes carry this key in front of this body, as the reader sees them. */
  predicate Carries(b: Bytes, key: Key, body: Bytes) {
    && |b| == HEADER_FIXED + |key.path| + |body| && FieldsAre(b, key, |key.path|)
    && b[HEADER_FIXED..HEADER_FIXED + |key.path|] == key.path && b[HEADER_FIXED + |key.path|..] == body
  }

  lemma HeaderReadsBack(key: Key)
    requires KeyInRange(key)
    ensures FieldsAre(Header(key), key, |key.path| % U32)
  {
    FieldsInOrder(key, |key.path| % U32, Bytes32(CACHE_MAGIC), Bytes32(CACHE_FORMAT_VERSION), Bytes64(key.mtime), Bytes64(key.size),
                  Bytes64(key.anchor), Bytes64(key.context), Bytes32(|key.path| % U32));
  }

  lemma ShortPathKeepsLength(key: Key)
    requires KeyInRange(key) && |key.path| < U32
    ensures FieldsAre(Header(key), key, |key.path|)
  {
    assert |key.path| % U32 == |key.path|;
    HeaderReadsBack(key);
  }

  lemma FieldsInOrder(key: Key, n: nat, magic: Bytes, version: Bytes, mtime: Bytes, size: Bytes,
                      anchor: Bytes, context: Bytes, length: Bytes)
    requires |magic| == |version| == |length| == 4 && |mtime| == |size| == |anchor| == |context| == 8
    requires Value32(magic) == CACHE_MAGIC && Value32(version) == CACHE_FORMAT_VERSION
    requires Value64(mtime) == key.mtime && Value64(size) == key.size
    requires Value64(anchor) == key.anchor && Value64(context) == key.context
    requires Value32(length) == n
    ensures FieldsAre(magic + version + mtime + size + anchor + context + length, key, n)
  {
    FieldLayout(magic, version, mtime, size, anchor, context, length);
  }

  lemma FieldLayout(magic: Bytes, version: Bytes, mtime: Bytes, size: Bytes,
                    anchor: Bytes, context: Bytes, length: Bytes)
    requires |magic| == |version| == |length| == 4 && |mtime| == |size| == |anchor| == |context| == 8
    ensures var b := magic + version + mtime + size + anchor + context + length;
            && b[0..OFF_FORMAT] == magic && b[OFF_FORMAT..OFF_MTIME] == version
            && b[OFF_MTIME..OFF_SIZE] == mtime && b[OFF_SIZE..OFF_ANCHOR] == size
            && b[OFF_ANCHOR..OFF_CONTEXT] == anchor && b[OFF_CONTEXT..OFF_PATH_LEN] == context
            && b[OFF_PATH_LEN..HEADER_FIXED] == length
  {
  }

  /** What follows the header does not change how its fields read. */
  lemma HeaderKeepsFields(header: Bytes, rest: Bytes, key: Key, n: nat)
    requires |header| == HEADER_FIXED && FieldsAre(header, key, n)
    ensures FieldsAre(header + rest, key, n)
  {
    var b := header + rest;
    assert b[0..OFF_FORMAT] == header[0..OFF_FORMAT] && b[OFF_FORMAT..OFF_MTIME] == header[OFF_FORMAT..OFF_MTIME];
    assert b[OFF_MTIME..OFF_SIZE] == header[OFF_MTIME..OFF_SIZE];
    assert b[OFF_SIZE..OFF_ANCHOR] == header[OFF_SIZE..OFF_ANCHOR];
    assert b[OFF_ANCHOR..OFF_CONTEXT] == header[OFF_ANCHOR..OFF_CONTEXT];
    assert b[OFF_CONTEXT..OFF_PATH_LEN] == header[OFF_CONTEXT..OFF_PATH_LEN];
    assert b[OFF_PATH_LEN..HEADER_FIXED] == header[OFF_PATH_LEN..HEADER_FIXED];
  }

  /** A header in front of its path and any body: each field, the path and the body lie where the reader looks. */
  lemma HeaderCarries(header: Bytes, key: Key, body: Bytes)
    requires |header| == HEADER_FIXED && FieldsAre(header, key, |key.path|)
    ensures Carries(header + key.path + body, key, body)
  {
    assert header + key.path + body == header + (key.path + body);
    HeaderKeepsFields(header, key.path + body, key, |key.path|);
    PathThenBody(header, key.path, body);
  }

  /**
    Whatever the bytes are, they validate under a key exactly when they carry the magic number, this
    format version, this key's fields and its path, and then give what follows.
  */
  lemma ValidatesIffCarried(b: Bytes, key: Key, body: Bytes)
    ensures ValidateHeader(b, key) == Some(body) <==> Carries(b, key, body)
  {
    if ValidateHeader(b, key) == Some(body) {
      var end := HEADER_FIXED + Value32(b[OFF_PATH_LEN..HEADER_FIXED]);
      assert |b[HEADER_FIXED..end]| == |key.path|;
    }
  }

  lemma OtherFormatsAreRefused(b: Bytes, key: Key)
    requires |b| >= HEADER_FIXED
    requires Value32(b[0..4]) != 0xC0DE_2106 || Value32(b[4..8]) != 9
    ensures ValidateHeader(b, key) == None
  {
  }

  lemma CarriedKeyValidates(b: Bytes, stored: Key, body: Bytes, key: Key)
    requires Carries(b, stored, body)
    ensures ValidateHeader(b, key) == if key == stored then Some(body) else None
  {
  }

  lemma PathThenBody(header: Bytes, path: Bytes, body: Bytes)
    requires |header| == HEADER_FIXED
    ensures var bytes := header + path + body;
            var end := HEADER_FIXED + |path|;
            && |bytes| == end + |body|
            && bytes[HEADER_FIXED..end] == path && bytes[end..] == body
  {
  }

  /**
    For a path shorter than 2^32 bytes, an entry validates under exactly the key it was stored with,
    and then returns exactly the body.
  */
  lemma EntryDiscriminates(stored: Key, body: Bytes, b: Bytes, key: Key)
    requires KeyInRange(stored) && |stored.path| < U32 && b == Entry(stored, body)
    ensures ValidateHeader(b, key) == if key == stored then Some(body) else None
  {
    ShortPathKeepsLength(stored);
    HeaderCarries(Header(stored), stored, body);
    CarriedKeyValidates(b, stored, body, key);
  }

  lemma EntryIsKeyed(stored: Key, body: Bytes, b: Bytes)
    requires KeyInRange(stored) && |stored.path| < U32 && b == Entry(stored, body)
    ensures forall key :: ValidateHeader(b, key) == if key == stored then Some(body) else None
  {
    forall key
      ensures ValidateHeader(b, key) == if key == stored then Some(body) else None
    {
      EntryDiscriminates(stored, body, b, key);
    }
  }

  /** A longer path is stored with a length that is not its own, so its entry never validates again. */
  lemma LongPathIsLost(stored: Key, body: Bytes, b: Bytes)
    requires KeyInRange(stored) && |stored.path| >= U32 && b == Entry(stored, body)
    ensures ValidateHeader(b, stored) == None
  {
    HeaderReadsBack(stored);
    assert b == Header(stored) + (stored.path + body);
    HeaderKeepsFields(Header(stored), stored.path + body, stored, |stored.path| % U32);
    WrongLengthIsRejected(b, stored, |stored.path| % U32);
  }

  lemma WrongLengthIsRejected(b: Bytes, key: Key, n: nat)
    requires |b| >= HEADER_FIXED && FieldsAre(b, key, n) && n != |key.path|
    ensures ValidateHeader(b, key) == None
  {
    var end := HEADER_FIXED + n;
    assert end <= |b| ==> |b[HEADER_FIXED..end]| != |key.path|;
  }

  /**
    The buffer `try_store` fills, field by field; the path length is cut to 32 bits. For a shorter
    path the reader gets exactly the body back under this key, and nothing under any other; for a
    longer one the entry is lost.
  */
  method StoredBytes(key: Key, body: Bytes) returns (buf: Bytes)
    requires KeyInRange(key)
    ensures |key.path| < U32 ==> forall k :: ValidateHeader(buf, k) == if k == key then Some(body) else None
    ensures |key.path| >= U32 ==> ValidateHeader(buf, key) == None
  {
    buf := [];
    buf := buf + Bytes32(CACHE_MAGIC);
    buf := buf + Bytes32(CACHE_FORMAT_VERSION);
    buf := buf + Bytes64(key.mtime);
    buf := buf + Bytes64(key.size);
    buf := buf + Bytes64(key.anchor);
    buf := buf + Bytes64(key.context);
    buf := buf + Bytes32(|key.path| % U32);
    buf := buf + key.path;
    buf := buf + body;
    if |key.path| < U32 {
      EntryIsKeyed(key, body, buf);
    } else {
      LongPathIsLost(key, body, buf);
    }
  }
}
