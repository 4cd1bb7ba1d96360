/**
 The wire format: big-endian numbers, length-prefixed strings, frame headers.  Writers append
 to a bounded buffer, readers consume it; both stop for good at the first error.
 */
module Wire {
  import opened Common

  type byte = x: int | 0 <= x < 256

  const LIMIT: nat := 0x200_0000          // 32 MiB
  const MAGIC: nat := 0x4556_4d31         // EVM1
  const VERSION: nat := 1
  const HEADER_SIZE: nat := 16
  const U32: nat := 0x1_0000_0000
  const U64: nat := 0x1_0000_0000_0000_0000

  // ------------------------------------------------------------ numbers

  function Put32(v: nat): (s: seq<byte>)
    requires v < U32
    ensures |s| == 4
  {
    [v / 0x100_0000, v / 0x1_0000 % 0x100, v / 0x100 % 0x100, v % 0x100]
  }

  function Val32(s: seq<byte>): (v: nat)
    requires |s| == 4
    ensures v < U32
  {
    var a: int, b: int, c: int := s[0], s[1], s[2];
    a * 0x100_0000 + b * 0x1_0000 + c * 0x100 + s[3]
  }

  lemma RoundTrip32(v: nat)
    requires v < U32
    ensures Val32(Put32(v)) == v
  {
    var a, b, c := v / 0x100_0000, v / 0x1_0000, v / 0x100;
    assert v == c * 0x100 + v % 0x100;
    assert c == b * 0x100 + c % 0x100;
    assert b == a * 0x100 + b % 0x100;
  }

  lemma RoundTrip32Bytes(s: seq<byte>)
    requires |s| == 4
    ensures Put32(Val32(s)) == s
  {
    var v := Val32(s);
    var a: int, b: int, c: int := s[0], s[1], s[2];
    assert v / 0x100_0000 == a;
    assert v / 0x1_0000 == a * 0x100 + b;
    assert v / 0x100 == (a * 0x100 + b) * 0x100 + c;
  }

  /** Big endian: the first byte counts most. */
  lemma BigEndian32(v: nat)
    requires v < U32
    ensures
      var s := Put32(v);
      var a: int, b: int, c: int, d: int := s[0], s[1], s[2], s[3];
      a * 0x100_0000 + b * 0x1_0000 + c * 0x100 + d == v
  {
    RoundTrip32(v);
  }

  function Put64(v: nat): (s: seq<byte>)
    requires v < U64
    ensures |s| == 8
  {
    Put32(v / U32) + Put32(v % U32)
  }

  /** A double word is its high half, then its low half. */
  lemma BigEndian64(v: nat)
    requires v < U64
    ensures var hi, lo := Val32(Put64(v)[..4]), Val32(Put64(v)[4..]); hi * 0x1_0000_0000 + lo == v
  {
    assert Put64(v)[..4] == Put32(v / U32) && Put64(v)[4..] == Put32(v % U32);
    RoundTrip32(v / U32);
    RoundTrip32(v % U32);
  }

  // ------------------------------------------------------------ reading

  /** A reader's place in its input; no place after an error. */
  datatype Place = At(pos: nat) | Error

  function Get32(s: seq<byte>, p: Place): (r: (nat, Place))
    ensures r.0 < U32
    ensures r.1.At? ==> p.At? && r.1.pos == p.pos + 4 <= |s|
  {
    if p.Error? || p.pos + 4 > |s| then (0, Error)
    else (Val32(s[p.pos..p.pos + 4]), At(p.pos + 4))
  }

  function Get64(s: seq<byte>, p: Place): (r: (nat, Place))
    ensures r.0 < U64
    ensures r.1.At? ==> p.At? && r.1.pos == p.pos + 8 <= |s|
  {
    var (hi, p1) := Get32(s, p);
    var (lo, p2) := Get32(s, p1);
    (hi * U32 + lo, p2)
  }

  /** The bytes x stand at place p. */
  ghost predicate Here(s: seq<byte>, p: Place, x: seq<byte>) {
    p.At? && p.pos + |x| <= |s| && s[p.pos..p.pos + |x|] == x
  }

  lemma Read32(s: seq<byte>, p: Place, v: nat)
    requires v < U32 && Here(s, p, Put32(v))
    ensures Get32(s, p) == (v, At(p.pos + 4))
  {
    RoundTrip32(v);
  }

  lemma Split(s: seq<byte>, p: Place, x: seq<byte>, y: seq<byte>)
    requires Here(s, p, x + y)
    ensures Here(s, p, x) && Here(s, At(p.pos + |x|), y)
  {
    var z := s[p.pos..p.pos + |x + y|];
    assert z[..|x|] == s[p.pos..p.pos + |x|] && z[|x|..] == s[p.pos + |x|..p.pos + |x| + |y|];
  }

  lemma WholeHere(s: seq<byte>)
    ensures Here(s, At(0), s)
  {
    assert s[0..0 + |s|] == s;
  }

  lemma Read64(s: seq<byte>, p: Place, v: nat)
    requires v < U64 && Here(s, p, Put64(v))
    ensures Get64(s, p) == (v, At(p.pos + 8))
  {
    Split(s, p, Put32(v / U32), Put32(v % U32));
    Read32(s, p, v / U32);
    Read32(s, At(p.pos + 4), v % U32);
  }

  // ------------------------------------------------------------ strings

  /** A C string's contents: no zero byte. */
  predicate Text(x: seq<byte>) {
    0 !in x
  }

  function PutString(x: seq<byte>): (s: seq<byte>)
    requires |x| < U32
    ensures |s| == 4 + |x|
  {
    Put32(|x|) + x
  }

  /** The next n bytes. */
  function GetBytes(s: seq<byte>, p: Place, n: nat): (r: (seq<byte>, Place))
    ensures r.1.At? ==> p.At? && r.1.pos == p.pos + n <= |s| && |r.0| == n
  {
    if p.Error? || p.pos + n > |s| then ([], Error)
    else (s[p.pos..p.pos + n], At(p.pos + n))
  }

  /** A length-prefixed string shorter than `capacity`, without zero bytes. */
  function GetFixed(s: seq<byte>, p: Place, capacity: nat): (r: (seq<byte>, Place))
    ensures r.1.At? ==> p.At? && Text(r.0) && |r.0| < capacity && r.1.pos == p.pos + 4 + |r.0| <= |s|
  {
    var (n, p1) := Get32(s, p);
    var (x, p2) := GetBytes(s, p1, n);
    if p2.Error? || !Text(x) || n >= capacity then ([], Error) else (x, p2)
  }

  /** A string of any length. */
  function GetString(s: seq<byte>, p: Place): (r: (seq<byte>, Place))
    ensures r.1.At? ==> p.At? && Text(r.0) && |r.0| < U32 && r.1.pos == p.pos + 4 + |r.0| <= |s|
  {
    GetFixed(s, p, U32)
  }

  lemma ReadFixed(s: seq<byte>, p: Place, x: seq<byte>, capacity: nat)
    requires |x| < U32 && |x| < capacity && Text(x) && Here(s, p, PutString(x))
    ensures GetFixed(s, p, capacity) == (x, At(p.pos + 4 + |x|))
  {
    Split(s, p, Put32(|x|), x);
    Read32(s, p, |x|);
  }

  /** Whatever was read as a number or string stood there in its written form. */
  lemma Written32(s: seq<byte>, p: Place)
    requires Get32(s, p).1.At?
    ensures Here(s, p, Put32(Get32(s, p).0))
  {
    RoundTrip32Bytes(s[p.pos..p.pos + 4]);
  }

  lemma Joined(s: seq<byte>, p: Place, x: seq<byte>, y: seq<byte>)
    requires Here(s, p, x) && Here(s, At(p.pos + |x|), y)
    ensures Here(s, p, x + y)
  {
    assert s[p.pos..p.pos + |x + y|] == s[p.pos..p.pos + |x|] + s[p.pos + |x|..p.pos + |x| + |y|];
  }

  lemma WrittenFixed(s: seq<byte>, p: Place, capacity: nat)
    requires GetFixed(s, p, capacity).1.At? && capacity <= U32
    ensures Here(s, p, PutString(GetFixed(s, p, capacity).0))
  {
    var x := GetFixed(s, p, capacity).0;
    Written32(s, p);
    Joined(s, p, Put32(|x|), x);
  }

  lemma Written64(s: seq<byte>, p: Place)
    requires Get64(s, p).1.At?
    ensures Here(s, p, Put64(Get64(s, p).0))
  {
    Written32(s, p);
    Written32(s, At(p.pos + 4));
    Joined(s, p, Put32(Get32(s, p).0), Put32(Get32(s, At(p.pos + 4)).0));
    var hi, lo := Get32(s, p).0, Get32(s, At(p.pos + 4)).0;
    assert (hi * U32 + lo) / U32 == hi && (hi * U32 + lo) % U32 == lo;
  }

  // ------------------------------------------------------------ writing and reading in place

  /** A growing buffer that never exceeds the limit and refuses everything after an error. */
  class Writer {
    var data: seq<byte>
    var cap: nat
    var error: bool

    predicate Valid()
      reads this
    {
      |data| <= cap <= LIMIT
    }

    constructor ()
      ensures Valid() && data == [] && !error
    {
      data, cap, error := [], 0, false;
    }

    method PutBytes(x: seq<byte>)
      requires Valid()
      modifies this
      ensures Valid() && (error <==> old(error) || |old(data)| + |x| > LIMIT)
      ensures !error ==> data == old(data) + x
    {
      if error {
        return;
      }
      if |x| > LIMIT - |data| {
        error := true;
        return;
      }
      if |data| + |x| > cap {
        var bigger := if cap > 0 then cap * 2 else 1024;
        if bigger < |data| + |x| {
          bigger := |data| + |x|;
        }
        cap := if bigger > LIMIT then LIMIT else bigger;
      }
      data := data + x;
    }

    method PutU32(v: nat)
      requires Valid() && v < U32
      modifies this
      ensures Valid() && (error <==> old(error) || |old(data)| + 4 > LIMIT)
      ensures !error ==> data == old(data) + Put32(v)
    {
      PutBytes(Put32(v));
    }

    method PutU64(v: nat)
      requires Valid() && v < U64
      modifies this
      ensures Valid() && (error <==> old(error) || |old(data)| + 8 > LIMIT)
      ensures !error ==> data == old(data) + Put64(v)
    {
      PutU32(v / U32);
      PutU32(v % U32);
      assert !error ==> data == old(data) + (Put32(v / U32) + Put32(v % U32));
    }

    method PutText(x: seq<byte>)
      requires Valid()
      modifies this
      ensures Valid() && (error <==> old(error) || |old(data)| + 4 + |x| > LIMIT)
      ensures !error ==> |x| < U32 && data == old(data) + PutString(x)
    {
      if |x| > LIMIT {
        error := true;
        return;
      }
      PutU32(|x|);
      PutBytes(x);
      assert !error ==> data == old(data) + (Put32(|x|) + x);
    }
  }

  /** A reader over received bytes: at the first error it stops moving and yields zeros. */
  class Reader {
    const data: seq<byte>
    var pos: nat
    var error: bool

    predicate Valid()
      reads this
    {
      pos <= |data|
    }

    function Here(): Place
      reads this
    {
      if error then Error else At(pos)
    }

    constructor (data: seq<byte>)
      ensures Valid() && this.data == data && Here() == At(0)
    {
      this.data, pos, error := data, 0, false;
    }

    method Fail()
      requires Valid()
      modifies this
      ensures Valid() && Here() == Error
    {
      error := true;
    }

    method TakeU32() returns (v: nat)
      requires Valid()
      modifies this
      ensures Valid() && (v, Here()) == Get32(data, old(Here()))
    {
      if error || |data| - pos < 4 {
        error := true;
        return 0;
      }
      v := Val32(data[pos..pos + 4]);
      pos := pos + 4;
    }

    method TakeU64() returns (v: nat)
      requires Valid()
      modifies this
      ensures Valid() && (v, Here()) == Get64(data, old(Here()))
    {
      var hi := TakeU32();
      var lo := TakeU32();
      v := hi * U32 + lo;
    }

    method TakeBytes(n: nat) returns (x: seq<byte>)
      requires Valid()
      modifies this
      ensures Valid() && (x, Here()) == GetBytes(data, old(Here()), n)
    {
      if error || n > |data| - pos {
        error := true;
        return [];
      }
      x := data[pos..pos + n];
      pos := pos + n;
    }

    method TakeFixed(capacity: nat) returns (x: seq<byte>)
      requires Valid()
      modifies this
      ensures Valid() && (x, Here()) == GetFixed(data, old(Here()), capacity)
    {
      var n := TakeU32();
      x := TakeBytes(n);
      if error || !Text(x) || n >= capacity {
        error := true;
        x := [];
      }
    }

    method Done() returns (done: bool)
      requires Valid()
      ensures done <==> Here() == At(|data|)
    {
      done := !error && pos == |data|;
    }
  }

  // ------------------------------------------------------------ frame headers

  datatype Header = Header(kind: nat, id: nat, size: nat)

  predicate Sendable(h: Header) {
    h.kind < 0x1_0000 && h.id < U32 && h.size <= LIMIT
  }

  function PutHeader(h: Header): (s: seq<byte>)
    requires Sendable(h)
    ensures |s| == HEADER_SIZE
  {
    Put32(MAGIC) + Put32(VERSION * 0x1_0000 + h.kind) + Put32(h.id) + Put32(h.size)
  }

  function GetHeader(s: seq<byte>): (h: Option<Header>)
    requires |s| == HEADER_SIZE
    ensures h.Some? ==> Sendable(h.value)
  {
    var magic, versionKind := Val32(s[..4]), Val32(s[4..8]);
    var id, size := Val32(s[8..12]), Val32(s[12..16]);
    if magic != MAGIC || versionKind / 0x1_0000 != VERSION || size > LIMIT then None
    else Some(Header(versionKind % 0x1_0000, id, size))
  }

  /** The sixteen bytes of a header: EVM1, the version, the type, the id, the size. */
  lemma HeaderBytes(h: Header)
    requires Sendable(h)
    ensures
      var s := PutHeader(h);
      && s[..4] == [0x45, 0x56, 0x4d, 0x31]
      && s[4..8] == [0, 1, h.kind / 256, h.kind % 256]
      && s[8..12] == Put32(h.id)
      && s[12..] == Put32(h.size)
  {
    hide Put32;
    var s := PutHeader(h);
    var a, b, c, d := Put32(MAGIC), Put32(VERSION * 0x1_0000 + h.kind), Put32(h.id), Put32(h.size);
    assert s[..4] == a && s[4..8] == b && s[8..12] == c && s[12..] == d;
    MagicBytes();
    VersionBytes(h.kind);
  }

  lemma MagicBytes()
    ensures Put32(MAGIC) == [0x45, 0x56, 0x4d, 0x31]
  {
  }

  lemma VersionBytes(kind: nat)
    requires kind < 0x1_0000
    ensures Put32(VERSION * 0x1_0000 + kind) == [0, 1, kind / 256, kind % 256]
  {
    var v := VERSION * 0x1_0000 + kind;
    assert v / 0x100_0000 == 0 && v / 0x1_0000 == 1;
    assert v / 0x100 == 256 + kind / 256 && v % 0x100 == kind % 256;
  }

  /** Header bytes are read exactly if a header was written, and as that header. */
  lemma HeaderRoundTrip(h: Header)
    requires Sendable(h)
    ensures GetHeader(PutHeader(h)) == Some(h)
  {
    var s := PutHeader(h);
    var k := VERSION * 0x1_0000 + h.kind;
    assert s[..4] == Put32(MAGIC) && s[4..8] == Put32(k) && s[8..12] == Put32(h.id) && s[12..16] == Put32(h.size);
    RoundTrip32(MAGIC);
    RoundTrip32(k);
    RoundTrip32(h.id);
    RoundTrip32(h.size);
  }

  lemma HeaderOnlyWritten(s: seq<byte>)
    requires |s| == HEADER_SIZE && GetHeader(s).Some?
    ensures PutHeader(GetHeader(s).value) == s
  {
    var h := GetHeader(s).value;
    RoundTrip32Bytes(s[..4]);
    RoundTrip32Bytes(s[4..8]);
    RoundTrip32Bytes(s[8..12]);
    RoundTrip32Bytes(s[12..16]);
    assert Val32(s[4..8]) == VERSION * 0x1_0000 + h.kind;
    assert s == s[..4] + s[4..8] + s[8..12] + s[12..16];
  }
}
