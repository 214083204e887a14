/** A file of a UDF image: its file entry, read once, and its contents, read from its first allocation descriptor. */
module UdfFile {
  import opened Models
  import opened UdfRecords
  import opened UdfReader

  /** An unreadable sector gives the entry of an empty file; a malformed one stops the program. */
  function EntryOf(image: seq<byte>, ps: nat, location: nat): Outcome<FileEntry> {
    match SectorAt(image, ps + location)
    case None => Ok(FileEntry(None, 0, []))
    case Some(b) => if EntryIn(b).Some? then Ok(EntryIn(b).value) else Stopped
  }

  function OffsetOf(ps: nat, fe: FileEntry): nat {
    if fe.ads == [] then 0 else SECTOR * (fe.ads[0].location + ps)
  }

  /** A section of a file: a size that is negative as a 64-bit number has no end. */
  function SectionOf(image: seq<byte>, off: nat, size: nat): seq<byte> {
    if off >= |image| then []
    else if size >= 0x8000_0000_0000_0000 || off + size >= |image| then image[off..]
    else image[off..off + size]
  }

  class File {
    const reader: Reader
    const fid: Fid
    var fe: Option<FileEntry>

    /** A file comes from a reader that has been initialised; a cached entry is the one on the image. */
    ghost predicate Valid()
      reads this, reader
    {
      && reader.isInited
      && (fe.Some? ==> EntryOf(reader.image, reader.PartitionStart(), fid.icbLocation) == Ok(fe.value))
    }

    constructor (reader: Reader, fid: Fid)
      requires reader.isInited
      ensures Valid() && this.reader == reader && this.fid == fid
    {
      this.reader, this.fid, fe := reader, fid, None;
    }

    method Entry() returns (entry: Outcome<FileEntry>)
      requires Valid()
      modifies this`fe
      ensures Valid()
      ensures entry == EntryOf(reader.image, reader.PartitionStart(), fid.icbLocation)
    {
      if fe.None? {
        var data := SectorAt(reader.image, reader.PartitionStart() + fid.icbLocation);
        if data.None? {
          return Ok(FileEntry(None, 0, []));
        }
        fe := NewFileEntry(data.value);
        if fe.None? {
          return Stopped;
        }
      }
      entry := Ok(fe.value);
    }

    /** Whether it is a directory; an unreadable sector stops the program. */
    method IsDir() returns (dir: Outcome<bool>)
      requires Valid()
      modifies this`fe
      ensures Valid()
      ensures var sector := SectorAt(reader.image, reader.PartitionStart() + fid.icbLocation);
              dir == if sector.Some? && EntryIn(sector.value).Some? then Ok(sector.value[27] == 4) else Stopped
    {
      var entry := Entry();
      dir := match entry
             case Ok(e) => if e.fileType.Some? then Ok(e.fileType.value == 4) else Stopped
             case _ => Stopped;
    }

    /** Everything a reader opened on the file gives. */
    method Contents() returns (bytes: Outcome<seq<byte>>)
      requires Valid()
      modifies this`fe
      ensures Valid()
      ensures bytes == match EntryOf(reader.image, reader.PartitionStart(), fid.icbLocation)
                       case Ok(e) =>
                         Ok(SectionOf(reader.image, OffsetOf(reader.PartitionStart(), e), e.informationLength))
                       case _ => Stopped
      ensures var sector := SectorAt(reader.image, reader.PartitionStart() + fid.icbLocation);
              && (sector.None? ==> bytes == Ok([]))
              && (sector.Some? && EntryIn(sector.value).None? ==> bytes == Stopped)
    {
      var entry := Entry();
      match entry {
        case Ok(e) =>
          var off := 0;
          if |e.ads| > 0 {
            off := SECTOR * (e.ads[0].location + reader.PartitionStart());
          }
          bytes := Ok(SectionOf(reader.image, off, e.informationLength));
        case _ => bytes := Stopped;
      }
    }
  }

  // ---- What the standard says a file holds ----

  function Start(ps: nat, e: Extent): nat {
    SECTOR * (e.location + ps)
  }

  /** The byte positions of a file, extent after extent. */
  function Positions(ps: nat, ads: seq<Extent>): seq<nat> {
    if ads == [] then [] else Run(Start(ps, ads[0]), ads[0].length) + Positions(ps, ads[1..])
  }

  function Run(start: nat, length: nat): (run: seq<nat>)
    ensures |run| == length && forall i | 0 <= i < length :: run[i] == start + i
  {
    seq(length, i requires 0 <= i < length => start + i)
  }

  predicate Covers(image: seq<byte>, positions: seq<nat>) {
    forall i | 0 <= i < |positions| :: positions[i] < |image|
  }

  function BytesAt(image: seq<byte>, positions: seq<nat>): (bytes: seq<byte>)
    requires Covers(image, positions)
    ensures |bytes| == |positions|
  {
    seq(|positions|, i requires 0 <= i < |positions| => image[positions[i]])
  }

  function TotalLength(ads: seq<Extent>): nat {
    if ads == [] then 0 else ads[0].length + TotalLength(ads[1..])
  }

  /** Each extent that holds anything starts where the bytes before it end. */
  predicate Contiguous(ps: nat, ads: seq<Extent>, at: nat) {
    ads == [] ||
    ((ads[0].length == 0 || Start(ps, ads[0]) == at) && Contiguous(ps, ads[1..], at + ads[0].length))
  }

  lemma RunSplits(at: nat, n: nat, m: nat)
    ensures Run(at, n + m) == Run(at, n) + Run(at + n, m)
  {
  }

  lemma RunsEqualIff(a: nat, b: nat, n: nat)
    ensures Run(a, n) == Run(b, n) <==> n == 0 || a == b
  {
    if n > 0 {
      assert Run(a, n)[0] == a && Run(b, n)[0] == b;
    }
  }

  lemma JoinedEqualIff(a: seq<nat>, b: seq<nat>, c: seq<nat>, d: seq<nat>)
    requires |a| == |c|
    ensures a + b == c + d <==> a == c && b == d
  {
    if a + b == c + d {
      assert a == (a + b)[..|a|] == c && b == (a + b)[|a|..] == d;
    }
  }

  lemma FirstThenRest(start: nat, at: nat, n: nat, rest: seq<nat>)
    ensures Run(start, n) + rest == Run(at, n + |rest|) <==> (n == 0 || start == at) && rest == Run(at + n, |rest|)
  {
    RunSplits(at, n, |rest|);
    RunsEqualIff(start, at, n);
    JoinedEqualIff(Run(start, n), rest, Run(at, n), Run(at + n, |rest|));
  }

  lemma {:induction false} PositionsAreRunIff(ps: nat, ads: seq<Extent>, at: nat)
    ensures |Positions(ps, ads)| == TotalLength(ads)
    ensures Positions(ps, ads) == Run(at, TotalLength(ads)) <==> Contiguous(ps, ads, at)
    decreases |ads|
  {
    if ads != [] {
      PositionsAreRunIff(ps, ads[1..], at + ads[0].length);
      FirstThenRest(Start(ps, ads[0]), at, ads[0].length, Positions(ps, ads[1..]));
    }
  }

  /** Reading the section gives the file: on every image that covers it. */
  ghost predicate AlwaysReads(ps: nat, ads: seq<Extent>, off: nat, size: nat) {
    forall image: seq<byte> | Covers(image, Positions(ps, ads)) ::
      SectionOf(image, off, size) == BytesAt(image, Positions(ps, ads))
  }

  function Highest(positions: seq<nat>): (top: nat)
    ensures forall i | 0 <= i < |positions| :: positions[i] < top
  {
    if positions == [] then 0
    else
      var n := |positions| - 1;
      var top := Highest(positions[..n]);
      assert forall i | 0 <= i < n :: positions[i] == positions[..n][i];
      if positions[n] < top then top else positions[n] + 1
  }

  /** An image of this size, blank but for one byte. */
  function Blank(size: nat, mark: nat): (image: seq<byte>)
    ensures |image| == size && forall i | 0 <= i < size :: image[i] == if i == mark then 1 else 0
  {
    seq(size, i => if i == mark then 1 else 0)
  }

  lemma RunReads(image: seq<byte>, off: nat, size: nat)
    requires Covers(image, Run(off, size)) && size < 0x8000_0000_0000_0000
    ensures SectionOf(image, off, size) == BytesAt(image, Run(off, size))
  {
    if size > 0 {
      assert Run(off, size)[size - 1] == off + size - 1;
    }
  }

  /** If the bytes are not one run of that size from there, some image tells. */
  lemma OtherwiseSomeImageTells(positions: seq<nat>, off: nat, size: nat)
    requires positions != Run(off, size) || size >= 0x8000_0000_0000_0000
    ensures exists image: seq<byte> ::
            Covers(image, positions) && SectionOf(image, off, size) != BytesAt(image, positions)
  {
    var room := Highest(positions) + off + |positions| + 1;
    if |positions| == size < 0x8000_0000_0000_0000 {
      var i :| 0 <= i < size && positions[i] != off + i;
      var image := Blank(room, positions[i]);
      assert Covers(image, positions);
      assert SectionOf(image, off, size) == image[off..off + size];
      assert BytesAt(image, positions)[i] == 1 && image[off..off + size][i] == 0;
    } else {
      var image := Blank(room, 0);
      assert Covers(image, positions) && |SectionOf(image, off, size)| != |positions|;
    }
  }

  /** Reading from the first descriptor reads the file exactly when its extents lie end to end and fill its length. */
  lemma FirstExtentIff(ps: nat, fe: FileEntry)
    ensures AlwaysReads(ps, fe.ads, OffsetOf(ps, fe), fe.informationLength) <==>
            && TotalLength(fe.ads) == fe.informationLength < 0x8000_0000_0000_0000
            && Contiguous(ps, fe.ads, OffsetOf(ps, fe))
  {
    var off, size, positions := OffsetOf(ps, fe), fe.informationLength, Positions(ps, fe.ads);
    PositionsAreRunIff(ps, fe.ads, off);
    if positions == Run(off, size) && size < 0x8000_0000_0000_0000 {
      forall image: seq<byte> | Covers(image, positions)
        ensures SectionOf(image, off, size) == BytesAt(image, positions) {
        RunReads(image, off, size);
      }
    } else {
      OtherwiseSomeImageTells(positions, off, size);
    }
  }

  /** A file without descriptors is read from the start of the image. */
  lemma NoExtentsIsMisread(ps: nat, fe: FileEntry, image: seq<byte>)
    requires fe.ads == [] && 0 < fe.informationLength < |image| < 0x8000_0000_0000_0000
    ensures SectionOf(image, OffsetOf(ps, fe), fe.informationLength) == image[..fe.informationLength]
  {
  }

  /** A file of one full sector and a byte two sectors further on: the byte read last is the one right after the
      first sector. */
  lemma GapIsMisread()
    ensures var fe := FileEntry(Some(5), SECTOR + 1, [Extent(SECTOR, 0), Extent(1, 2)]);
            var image, positions := Blank(3 * SECTOR, 2 * SECTOR), Positions(0, fe.ads);
            var read := SectionOf(image, OffsetOf(0, fe), fe.informationLength);
            && Covers(image, positions) && |read| == |positions| == SECTOR + 1
            && BytesAt(image, positions)[SECTOR] == 1 && read[SECTOR] == 0
  {
    var ads, image := [Extent(SECTOR, 0), Extent(1, 2)], Blank(3 * SECTOR, 2 * SECTOR);
    assert ads[1..] == [Extent(1, 2)] && ads[1..][1..] == [];
    assert Positions(0, ads[1..]) == Run(2 * SECTOR, 1) + [];
    assert Positions(0, ads) == Run(0, SECTOR) + Run(2 * SECTOR, 1);
  }
}
