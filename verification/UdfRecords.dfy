/** The file identifier records of a UDF directory, as section 4/14.4 of ECMA-167 lays them out, and their reader. */
module UdfRecords {
  import opened Models

  type byte = b: int | 0 <= b < 256

  // ---- Little-endian numbers ----

  function U16(b: seq<byte>, at: nat): (n: nat)
    requires at + 2 <= |b|
    ensures n < 0x1_0000
  {
    b[at] as int + 256 * (b[at + 1] as int)
  }

  function U32(b: seq<byte>, at: nat): (n: nat)
    requires at + 4 <= |b|
    ensures n < 0x1_0000_0000
  {
    U16(b, at) + 0x1_0000 * U16(b, at + 2)
  }

  function U48(b: seq<byte>, at: nat): (n: nat)
    requires at + 6 <= |b|
    ensures n < 0x1_0000_0000_0000
  {
    U32(b, at) + 0x1_0000_0000 * U16(b, at + 4)
  }

  function U64(b: seq<byte>, at: nat): (n: nat)
    requires at + 8 <= |b|
    ensures n < 0x1_0000_0000_0000_0000
  {
    U32(b, at) + 0x1_0000_0000 * U32(b, at + 4)
  }

  function Put16(n: nat): (b: seq<byte>)
    requires n < 0x1_0000
    ensures |b| == 2
  {
    [n % 256, n / 256]
  }

  function Put32(n: nat): (b: seq<byte>)
    requires n < 0x1_0000_0000
    ensures |b| == 4
  {
    Put16(n % 0x1_0000) + Put16(n / 0x1_0000)
  }

  function Put48(n: nat): (b: seq<byte>)
    requires n < 0x1_0000_0000_0000
    ensures |b| == 6
  {
    Put32(n % 0x1_0000_0000) + Put16(n / 0x1_0000_0000)
  }

  lemma Read16(b: seq<byte>, at: nat, n: nat)
    requires n < 0x1_0000 && at + 2 <= |b| && b[at..at + 2] == Put16(n)
    ensures U16(b, at) == n
  {
    assert b[at] == b[at..at + 2][0] && b[at + 1] == b[at..at + 2][1];
  }

  lemma Read32(b: seq<byte>, at: nat, n: nat)
    requires n < 0x1_0000_0000 && at + 4 <= |b| && b[at..at + 4] == Put32(n)
    ensures U32(b, at) == n
  {
    assert b[at..at + 2] == b[at..at + 4][..2] && b[at + 2..at + 4] == b[at..at + 4][2..];
    Read16(b, at, n % 0x1_0000);
    Read16(b, at + 2, n / 0x1_0000);
  }

  lemma Read48(b: seq<byte>, at: nat, n: nat)
    requires n < 0x1_0000_0000_0000 && at + 6 <= |b| && b[at..at + 6] == Put48(n)
    ensures U48(b, at) == n
  {
    assert b[at..at + 4] == b[at..at + 6][..4] && b[at + 4..at + 6] == b[at..at + 6][4..];
    Read32(b, at, n % 0x1_0000_0000);
    Read16(b, at + 4, n / 0x1_0000_0000);
  }

  // ---- Reading one record ----

  /** A library decoder for the bytes after a compression id of 8 or 16; None when it reports an error. */
  type Decoder = (byte, seq<byte>) -> Option<string>

  function DCharacters(decode: Decoder, b: seq<byte>): string {
    if b == [] || b[0] !in {8, 16} then ""
    else
      var name := decode(b[0], b[1..]);
      if name.Some? then name.value else ""
  }

  datatype Fid = Fid(
    version: nat, characteristics: byte, nameLength: nat, icbLength: nat, icbLocation: nat, useLength: nat,
    name: string)
  {
    function Len(): nat {
      4 * ((38 + useLength + nameLength + 3) / 4)
    }
  }

  /** The name lies between a 16-bit start and an 8-bit end. */
  function NameStart(useLength: nat): nat {
    (38 + useLength) % 0x1_0000
  }

  function NameEnd(useLength: nat, nameLength: byte): nat {
    (nameLength + NameStart(useLength) % 256) % 256
  }

  /** None when an index or a slice is out of range, which stops the program. */
  function NewFid(decode: Decoder, b: seq<byte>): (fid: Option<Fid>)
    ensures fid.Some? ==> |b| >= 70 && fid.value.useLength == U16(b, 36) && fid.value.nameLength == b[19]
  {
    if |b| < 70 then None
    else
      var start, end := NameStart(U16(b, 36)), NameEnd(U16(b, 36), b[19]);
      if !(start <= end <= |b|) then None
      else Some(Fid(U16(b, 16), b[18], b[19], U32(b, 20), U48(b, 24), U16(b, 36), DCharacters(decode, b[start..end])))
  }

  /** The 8-bit end keeps the slice in order exactly when the name, from its 16-bit start, ends by byte 255. */
  lemma SliceInOrderIff(useLength: nat, nameLength: byte)
    requires useLength < 0x1_0000
    ensures NameStart(useLength) <= NameEnd(useLength, nameLength) <==> NameStart(useLength) + nameLength <= 255
    ensures NameStart(useLength) + nameLength <= 255 ==>
            NameEnd(useLength, nameLength) == NameStart(useLength) + nameLength
    ensures useLength <= 65497 ==> NameStart(useLength) == 38 + useLength
  {
  }

  // ---- Writing one record ----

  datatype Record = Record(
    tag: seq<byte>, version: nat, characteristics: byte, icbLength: nat, icbLocation: nat, icbUse: seq<byte>,
    use: seq<byte>, ident: seq<byte>)

  predicate WellFormed(r: Record) {
    && |r.tag| == 16 && |r.icbUse| == 6 && r.version < 0x1_0000 && r.icbLength < 0x1_0000_0000
    && r.icbLocation < 0x1_0000_0000_0000 && |r.use| < 0x1_0000 && |r.ident| < 256
  }

  function Padded(n: nat): (m: nat)
    ensures n <= m < n + 4 && m % 4 == 0
  {
    4 * ((n + 3) / 4)
  }

  function Header(r: Record): (b: seq<byte>)
    requires WellFormed(r)
    ensures |b| == 38
  {
    r.tag + Put16(r.version) + [r.characteristics] + [|r.ident|] + Put32(r.icbLength) + Put48(r.icbLocation) + r.icbUse
    + Put16(|r.use|)
  }

  function Encode(r: Record): (b: seq<byte>)
    requires WellFormed(r)
    ensures |b| == Padded(38 + |r.use| + |r.ident|)
  {
    var n := 38 + |r.use| + |r.ident|;
    Header(r) + r.use + r.ident + seq(Padded(n) - n, _ => 0)
  }

  /** What the reader takes from a record: its own fields, and a name from where it looks for one. */
  function Seen(decode: Decoder, r: Record): Fid
    requires WellFormed(r)
  {
    var start := NameStart(|r.use|);
    var ident := if start + |r.ident| <= |Encode(r)| then Encode(r)[start..start + |r.ident|] else [];
    Fid(r.version, r.characteristics, |r.ident|, r.icbLength, r.icbLocation, |r.use|, DCharacters(decode, ident))
  }

  lemma HeaderFields(r: Record, b: seq<byte>)
    requires WellFormed(r) && Header(r) <= b
    ensures U16(b, 16) == r.version && b[18] == r.characteristics && b[19] == |r.ident|
    ensures U32(b, 20) == r.icbLength && U48(b, 24) == r.icbLocation && U16(b, 36) == |r.use|
  {
    var h := Header(r);
    assert b[18] == h[18] && b[19] == h[19];
    assert b[16..18] == h[16..18] == Put16(r.version);
    Read16(b, 16, r.version);
    assert b[20..24] == h[20..24] == Put32(r.icbLength);
    Read32(b, 20, r.icbLength);
    assert b[24..30] == h[24..30] == Put48(r.icbLocation);
    Read48(b, 24, r.icbLocation);
    assert b[36..38] == h[36..38] == Put16(|r.use|);
    Read16(b, 36, |r.use|);
  }

  /** With implementation use short enough not to wrap, the reader looks where the name is. */
  lemma SeenIsTrue(decode: Decoder, r: Record)
    requires WellFormed(r) && |r.use| <= 65497
    ensures Seen(decode, r).name == DCharacters(decode, r.ident)
  {
    var at := 38 + |r.use|;
    assert Encode(r)[at..at + |r.ident|] == r.ident;
  }

  /** A record can be read exactly when 70 bytes of buffer follow its start and its name ends by byte 255. */
  predicate Readable(r: Record, room: nat) {
    room >= 70 && NameStart(|r.use|) + |r.ident| <= 255
  }

  lemma NewFidReads(decode: Decoder, r: Record, rest: seq<byte>)
    requires WellFormed(r)
    ensures NewFid(decode, Encode(r) + rest) == if Readable(r, |Encode(r) + rest|) then Some(Seen(decode, r)) else None
  {
    var b := Encode(r) + rest;
    var start := NameStart(|r.use|);
    SliceInOrderIff(|r.use|, |r.ident|);
    assert Header(r) <= b by {
      assert Encode(r)[..38] == Header(r);
      assert b[..38] == Encode(r)[..38];
    }
    HeaderFields(r, b);
    if Readable(r, |b|) {
      assert b[start..start + |r.ident|] == Encode(r)[start..start + |r.ident|];
    }
  }

  // ---- Reading a directory ----

  type Parser = seq<byte> -> Option<Fid>

  function FidParser(decode: Decoder): Parser {
    b => NewFid(decode, b)
  }

  function With(found: seq<Fid>, rest: Option<seq<Fid>>): Option<seq<Fid>> {
    if rest.None? then None else Some(found + rest.value)
  }

  function Named(fid: Fid): seq<Fid> {
    if fid.name != "" then [fid] else []
  }

  /** The records in a directory extent of this length, from an offset on; those with no name are passed over. */
  function ReadFrom(parse: Parser, buf: seq<byte>, length: nat, off: nat): Option<seq<Fid>>
    decreases |buf| - off
  {
    if off % 0x1_0000_0000 >= length then Some([])
    else if off > |buf| then None
    else
      var fid := parse(buf[off..]);
      if fid.None? then None
      else With(Named(fid.value), ReadFrom(parse, buf, length, off + fid.value.Len()))
  }

  function ReadRecords(decode: Decoder, buf: seq<byte>, length: nat): Option<seq<Fid>> {
    ReadFrom(FidParser(decode), buf, length, 0)
  }

  lemma WithTwice(found: seq<Fid>, more: seq<Fid>, rest: Option<seq<Fid>>)
    ensures With(found, With(more, rest)) == With(found + more, rest)
  {
    if rest.Some? {
      assert found + (more + rest.value) == found + more + rest.value;
    }
  }

  lemma WithNothing(rest: Option<seq<Fid>>)
    ensures With([], rest) == rest
  {
    if rest.Some? {
      assert [] + rest.value == rest.value;
    }
  }

  method ParseRecords(decode: Decoder, buf: seq<byte>, length: nat) returns (files: Option<seq<Fid>>)
    ensures files == ReadRecords(decode, buf, length)
  {
    var found: seq<Fid> := [];
    var off := 0;
    ghost var parse := FidParser(decode);
    ghost var all := ReadFrom(parse, buf, length, 0);
    assert ReadRecords(decode, buf, length) == all;
    WithNothing(all);
    while off % 0x1_0000_0000 < length
      invariant With(found, ReadFrom(parse, buf, length, off)) == all
      decreases |buf| - off
    {
      if off > |buf| {
        return None;
      }
      var fid := NewFid(decode, buf[off..]);
      if fid.None? {
        return None;
      }
      WithTwice(found, Named(fid.value), ReadFrom(parse, buf, length, off + fid.value.Len()));
      assert With(found + Named(fid.value), ReadFrom(parse, buf, length, off + fid.value.Len())) == all;
      assert found + [] == found;
      if fid.value.name != "" {
        found := found + [fid.value];
      }
      off := off + fid.value.Len();
    }
    assert found + [] == found;
    files := Some(found);
  }

  /** Some bytes that read as one record: which, and whether its name can be sliced out. */
  datatype Chunk = Chunk(bytes: seq<byte>, fid: Fid, clear: bool)

  ghost predicate Parses(parse: Parser, c: Chunk) {
    && |c.bytes| >= 40 && c.fid.Len() == |c.bytes|
    && forall more: seq<byte> ::
         parse(c.bytes + more) == if |c.bytes + more| >= 70 && c.clear then Some(c.fid) else None
  }

  function Join(chunks: seq<Chunk>): seq<byte> {
    if chunks == [] then [] else chunks[0].bytes + Join(chunks[1..])
  }

  /** All the named records, or None when one cannot be read; room counts the bytes from the first to the end. */
  function Answer(chunks: seq<Chunk>, room: int): Option<seq<Fid>>
    decreases |chunks|
  {
    if chunks == [] then Some([])
    else if room < 70 || !chunks[0].clear then None
    else With(Named(chunks[0].fid), Answer(chunks[1..], room - |chunks[0].bytes|))
  }

  lemma Cut(buf: seq<byte>, off: nat, first: seq<byte>, rest: seq<byte>, tail: seq<byte>)
    requires off <= |buf| && buf[off..] == first + rest + tail
    ensures buf[off..] == first + (rest + tail)
    ensures off + |first| <= |buf| && buf[off + |first|..] == rest + tail
  {
    assert buf[off + |first|..] == buf[off..][|first|..];
  }

  lemma ReadsOne(parse: Parser, buf: seq<byte>, length: nat, off: nat, c: Chunk, more: seq<byte>)
    requires Parses(parse, c) && off <= |buf| && buf[off..] == c.bytes + more && off < length < 0x4000_0000
    ensures ReadFrom(parse, buf, length, off) ==
            if |buf| - off >= 70 && c.clear
            then With(Named(c.fid), ReadFrom(parse, buf, length, off + |c.bytes|)) else None
  {
    assert parse(buf[off..]) == if |c.bytes + more| >= 70 && c.clear then Some(c.fid) else None;
  }

  lemma {:induction false} ReadsFrom(parse: Parser, buf: seq<byte>, length: nat, off: nat, chunks: seq<Chunk>,
                                     tail: seq<byte>)
    requires forall k | 0 <= k < |chunks| :: Parses(parse, chunks[k])
    requires off <= |buf| && buf[off..] == Join(chunks) + tail && length == off + |Join(chunks)| < 0x4000_0000
    ensures ReadFrom(parse, buf, length, off) == Answer(chunks, |buf| - off)
    decreases |chunks|
  {
    if chunks != [] {
      var c := chunks[0];
      assert Parses(parse, c);
      Cut(buf, off, c.bytes, Join(chunks[1..]), tail);
      ReadsOne(parse, buf, length, off, c, Join(chunks[1..]) + tail);
      ReadsFrom(parse, buf, length, off + |c.bytes|, chunks[1..], tail);
    }
  }

  lemma ReadsChunks(decode: Decoder, chunks: seq<Chunk>, tail: seq<byte>)
    requires (forall k | 0 <= k < |chunks| :: Parses(FidParser(decode), chunks[k])) && |Join(chunks)| < 0x4000_0000
    ensures ReadRecords(decode, Join(chunks) + tail, |Join(chunks)|) == Answer(chunks, |Join(chunks) + tail|)
  {
    var buf := Join(chunks) + tail;
    assert buf[0..] == buf;
    ReadsFrom(FidParser(decode), buf, |Join(chunks)|, 0, chunks, tail);
  }

  // ---- What comes back from a directory of records ----

  function ChunkOf(decode: Decoder, r: Record): Chunk
    requires WellFormed(r)
  {
    Chunk(Encode(r), Seen(decode, r), NameStart(|r.use|) + |r.ident| <= 255)
  }

  function Chunks(decode: Decoder, records: seq<Record>): (chunks: seq<Chunk>)
    requires forall r <- records :: WellFormed(r)
    ensures |chunks| == |records|
  {
    seq(|records|, k requires 0 <= k < |records| => ChunkOf(decode, records[k]))
  }

  function EncodeAll(records: seq<Record>): seq<byte>
    requires forall r <- records :: WellFormed(r)
  {
    if records == [] then [] else Encode(records[0]) + EncodeAll(records[1..])
  }

  /** Each record can be read, the first having this many bytes to the end of the buffer. */
  predicate AllReadable(records: seq<Record>, room: int)
    requires forall r <- records :: WellFormed(r)
    decreases |records|
  {
    records == [] ||
    (room >= 0 && Readable(records[0], room) && AllReadable(records[1..], room - |Encode(records[0])|))
  }

  function SeenAll(decode: Decoder, records: seq<Record>): seq<Fid>
    requires forall r <- records :: WellFormed(r)
  {
    if records == [] then [] else Named(Seen(decode, records[0])) + SeenAll(decode, records[1..])
  }

  lemma ChunksUnfold(decode: Decoder, records: seq<Record>)
    requires records != [] && forall r <- records :: WellFormed(r)
    ensures var c := Chunks(decode, records);
            c != [] && c[0] == ChunkOf(decode, records[0]) && c[1..] == Chunks(decode, records[1..])
  {
  }

  lemma {:induction false} ChunksJoin(decode: Decoder, records: seq<Record>)
    requires forall r <- records :: WellFormed(r)
    ensures Join(Chunks(decode, records)) == EncodeAll(records)
    decreases |records|
  {
    if records != [] {
      ChunksUnfold(decode, records);
      ChunksJoin(decode, records[1..]);
    }
  }

  lemma {:induction false} ChunksAnswer(decode: Decoder, records: seq<Record>, room: int)
    requires forall r <- records :: WellFormed(r)
    ensures Answer(Chunks(decode, records), room) ==
            if AllReadable(records, room) then Some(SeenAll(decode, records)) else None
    decreases |records|
  {
    if records != [] {
      ChunksUnfold(decode, records);
      ChunksAnswer(decode, records[1..], room - |Encode(records[0])|);
    }
  }

  lemma ChunkParses(decode: Decoder, r: Record)
    requires WellFormed(r)
    ensures Parses(FidParser(decode), ChunkOf(decode, r))
  {
    var c := ChunkOf(decode, r);
    forall more: seq<byte>
      ensures NewFid(decode, c.bytes + more) == if |c.bytes + more| >= 70 && c.clear then Some(c.fid) else None
    {
      NewFidReads(decode, r, more);
    }
  }

  lemma ChunksParse(decode: Decoder, records: seq<Record>)
    requires forall r <- records :: WellFormed(r)
    ensures forall k | 0 <= k < |records| :: Parses(FidParser(decode), Chunks(decode, records)[k])
  {
    forall k | 0 <= k < |records| ensures Parses(FidParser(decode), Chunks(decode, records)[k]) {
      ChunkParses(decode, records[k]);
    }
  }

  /** Reading back a directory of any records below the extent limit: all of them, as seen, or the program stops. */
  lemma {:induction false} ReadDirIff(decode: Decoder, records: seq<Record>, tail: seq<byte>)
    requires forall r <- records :: WellFormed(r)
    requires |EncodeAll(records)| < 0x4000_0000
    ensures ReadRecords(decode, EncodeAll(records) + tail, |EncodeAll(records)|) ==
            if AllReadable(records, |EncodeAll(records) + tail|) then Some(SeenAll(decode, records)) else None
  {
    ChunksJoin(decode, records);
    ChunksAnswer(decode, records, |EncodeAll(records) + tail|);
    ChunksParse(decode, records);
    ReadsChunks(decode, Chunks(decode, records), tail);
  }

  /** The records of a directory that have a name, in order, as they were written. */
  function Entries(decode: Decoder, records: seq<Record>): seq<Fid>
    requires forall r <- records :: WellFormed(r)
  {
    if records == [] then []
    else
      var r := records[0];
      Named(Fid(r.version, r.characteristics, |r.ident|, r.icbLength, r.icbLocation, |r.use|,
                DCharacters(decode, r.ident)))
      + Entries(decode, records[1..])
  }

  /** A record is listed exactly when its identifier starts with a compression id of 8 or 16 and the rest decodes to a
      name, and then under that name. */
  lemma ListedIff(decode: Decoder, r: Record)
    requires WellFormed(r)
    ensures Entries(decode, [r]) ==
            if r.ident != [] && (r.ident[0] == 8 || r.ident[0] == 16)
               && decode(r.ident[0], r.ident[1..]).Some? && decode(r.ident[0], r.ident[1..]).value != ""
            then [Fid(r.version, r.characteristics, |r.ident|, r.icbLength, r.icbLocation, |r.use|,
                      decode(r.ident[0], r.ident[1..]).value)]
            else []
  {
    assert [r][1..] == [] && Entries(decode, []) == [];
  }

  /** Where implementation use does not reach the 16-bit wrap, what is seen is what was written. */
  lemma {:induction false} ReadDirUndoesEncoding(decode: Decoder, records: seq<Record>)
    requires forall r <- records :: WellFormed(r) && |r.use| <= 65497
    ensures SeenAll(decode, records) == Entries(decode, records)
    decreases |records|
  {
    if records != [] {
      SeenIsTrue(decode, records[0]);
      ReadDirUndoesEncoding(decode, records[1..]);
    }
  }

  /** A directory that fills its sectors and ends in a record shorter than 70 bytes cannot be read at all. */
  lemma {:induction false} ShortLastRecordStops(records: seq<Record>)
    requires records != [] && forall r <- records :: WellFormed(r)
    requires |Encode(records[|records| - 1])| < 70
    ensures !AllReadable(records, |EncodeAll(records)|)
    decreases |records|
  {
    if |records| > 1 {
      ShortLastRecordStops(records[1..]);
    } else {
      assert EncodeAll(records[1..]) == [];
    }
  }

  function Copies(r: Record, n: nat): (records: seq<Record>)
    ensures |records| == n && forall k | 0 <= k < n :: records[k] == r
  {
    seq(n, _ => r)
  }

  lemma OneMore(n: nat, length: nat)
    requires n > 0
    ensures length + (n - 1) * length == n * length
  {
  }

  lemma {:induction false} CopiesLength(r: Record, n: nat)
    requires WellFormed(r)
    ensures |EncodeAll(Copies(r, n))| == n * |Encode(r)|
    decreases n
  {
    if n > 0 {
      assert Copies(r, n)[1..] == Copies(r, n - 1);
      CopiesLength(r, n - 1);
      OneMore(n, |Encode(r)|);
    }
  }

  /** Thirty-two records of 64 bytes fill one sector; reading them stops the program at the last. */
  lemma FullSectorStops(decode: Decoder)
    ensures var r := Record(Zeros(16), 1, 0, 0, 0, Zeros(6), [], Zeros(26));
            var buf := EncodeAll(Copies(r, 32));
            |Encode(r)| == 64 && |buf| == 2048 && ReadRecords(decode, buf, 2048).None?
  {
    var r := Record(Zeros(16), 1, 0, 0, 0, Zeros(6), [], Zeros(26));
    var records := Copies(r, 32);
    assert |Encode(r)| == 64;
    CopiesLength(r, 32);
    assert records[31] == r;
    ShortLastRecordStops(records);
    ReadDirIff(decode, records, []);
    assert EncodeAll(records) + [] == EncodeAll(records);
  }

  function Zeros(n: nat): (b: seq<byte>)
    ensures |b| == n
  {
    seq(n, _ => 0)
  }
}
