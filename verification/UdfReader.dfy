/** The UDF reader over an image: its one-time scan of volume descriptors, directories and files. */
module UdfReader {
  import opened Models
  import opened UdfRecords

  const SECTOR: nat := 2048

  /** The result, an error returned to the caller, or a run-time error that stops it. */
  datatype Outcome<+T> = Ok(value: T) | Failed | Stopped

  datatype Extent = Extent(length: nat, location: nat)

  /** The file type is part of a tag, which the entry of an unreadable sector does not have. */
  datatype FileEntry = FileEntry(fileType: Option<nat>, informationLength: nat, ads: seq<Extent>)

  /** Sectors are addressed by a 64-bit byte offset; what lies past 2^63 is negative to the file, which refuses it. */
  function SectorAt(image: seq<byte>, n: nat): Option<seq<byte>> {
    var off := SECTOR * n % 0x1_0000_0000_0000_0000;
    if off + SECTOR <= |image| && off < 0x8000_0000_0000_0000 then Some(image[off..off + SECTOR]) else None
  }

  function SectorsAt(image: seq<byte>, n: nat, count: nat): Option<seq<byte>> {
    var off := SECTOR * n % 0x1_0000_0000_0000_0000;
    if off >= 0x8000_0000_0000_0000 then None
    else if count == 0 then Some([])
    else if off + SECTOR * count <= |image| then Some(image[off..off + SECTOR * count])
    else None
  }

  function ExtentIn(b: seq<byte>, at: nat): Extent
    requires at + 8 <= |b|
  {
    Extent(U32(b, at), U32(b, at + 4))
  }

  // ---- File entries ----

  /** Where the allocation descriptors start: a 32-bit sum. */
  function DescriptorsAt(b: seq<byte>): nat
    requires |b| == SECTOR
  {
    (176 + U32(b, 168)) % 0x1_0000_0000
  }

  function DescriptorOffset(b: seq<byte>, i: nat): nat
    requires |b| == SECTOR
  {
    (DescriptorsAt(b) + i * 8) % 0x1_0000_0000
  }

  /** The first so many descriptors; None when one is not inside the sector. */
  function Descriptors(b: seq<byte>, count: nat): Option<seq<Extent>>
    requires |b| == SECTOR
  {
    if count == 0 then Some([])
    else match Descriptors(b, count - 1)
      case None => None
      case Some(front) =>
        var at := DescriptorOffset(b, count - 1);
        if at + 8 > SECTOR then None else Some(front + [ExtentIn(b, at)])
  }

  function EntryIn(b: seq<byte>): Option<FileEntry>
    requires |b| == SECTOR
  {
    if !(176 <= DescriptorsAt(b) <= SECTOR) then None
    else match Descriptors(b, U32(b, 172) / 8)
      case None => None
      case Some(ads) => Some(FileEntry(Some(b[27]), U64(b, 56), ads))
  }

  method NewFileEntry(b: seq<byte>) returns (fe: Option<FileEntry>)
    requires |b| == SECTOR
    ensures fe == EntryIn(b)
  {
    var start := DescriptorsAt(b);
    if !(176 <= start <= SECTOR) {
      return None;
    }
    var count := U32(b, 172) / 8;
    var ads: seq<Extent> := [];
    for i := 0 to count
      invariant Descriptors(b, i) == Some(ads)
    {
      var at := DescriptorOffset(b, i);
      if at + 8 > SECTOR {
        OutsideStays(b, i + 1, count);
        return None;
      }
      ads := ads + [ExtentIn(b, at)];
    }
    fe := Some(FileEntry(Some(b[27]), U64(b, 56), ads));
  }

  lemma {:induction false} OutsideStays(b: seq<byte>, i: nat, count: nat)
    requires |b| == SECTOR && i <= count && Descriptors(b, i).None?
    ensures Descriptors(b, count).None?
    decreases count
  {
    if i < count {
      OutsideStays(b, i, count - 1);
    }
  }

  lemma OffsetIs(b: seq<byte>, i: nat)
    requires |b| == SECTOR && DescriptorsAt(b) + 8 * i <= SECTOR
    ensures DescriptorOffset(b, i) == DescriptorsAt(b) + 8 * i
  {
  }

  lemma {:induction false} DescriptorsIff(b: seq<byte>, count: nat)
    requires |b| == SECTOR && 176 <= DescriptorsAt(b) <= SECTOR && count <= 0x2000_0000
    ensures Descriptors(b, count).Some? <==> DescriptorsAt(b) + 8 * count <= SECTOR
    decreases count
  {
    if count > 0 {
      DescriptorsIff(b, count - 1);
      if Descriptors(b, count - 1).Some? {
        OffsetIs(b, count - 1);
      }
    }
  }

  lemma {:induction false} DescriptorsAre(b: seq<byte>, count: nat, i: nat)
    requires |b| == SECTOR && 176 <= DescriptorsAt(b) <= SECTOR && i < count <= 0x2000_0000 &&
             Descriptors(b, count).Some?
    ensures i < |Descriptors(b, count).value| && DescriptorsAt(b) + 8 * i + 8 <= SECTOR
    ensures Descriptors(b, count).value[i] == ExtentIn(b, DescriptorsAt(b) + 8 * i)
    decreases count
  {
    DescriptorsIff(b, count);
    OffsetIs(b, count - 1);
    DescriptorsLength(b, count);
    DescriptorsLength(b, count - 1);
    if i < count - 1 {
      DescriptorsAre(b, count - 1, i);
    }
  }

  lemma {:induction false} DescriptorsLength(b: seq<byte>, count: nat)
    requires |b| == SECTOR && Descriptors(b, count).Some?
    ensures |Descriptors(b, count).value| == count
    decreases count
  {
    if count > 0 {
      DescriptorsLength(b, count - 1);
    }
  }

  lemma StartIs(n: nat)
    requires n < 0x1_0000_0000
    ensures 176 <= (176 + n) % 0x1_0000_0000 <= SECTOR <==> 176 + n <= SECTOR
    ensures 176 + n <= SECTOR ==> (176 + n) % 0x1_0000_0000 == 176 + n
  {
  }

  /** A file entry can be read exactly when its attributes and its descriptors end inside its sector. */
  lemma {:induction false} EntryInIff(b: seq<byte>, attributes: nat, count: nat)
    requires |b| == SECTOR && attributes == U32(b, 168) && count == U32(b, 172) / 8
    ensures EntryIn(b).Some? <==> 176 + attributes + 8 * count <= SECTOR
    ensures EntryIn(b).Some? ==>
              && |EntryIn(b).value.ads| == count
              && forall i | 0 <= i < count :: EntryIn(b).value.ads[i] == ExtentIn(b, 176 + attributes + 8 * i)
  {
    StartIs(attributes);
    if 176 + attributes <= SECTOR {
      DescriptorsIff(b, count);
      if Descriptors(b, count).Some? {
        DescriptorsLength(b, count);
        forall i | 0 <= i < count ensures Descriptors(b, count).value[i] == ExtentIn(b, 176 + attributes + 8 * i) {
          DescriptorsAre(b, count, i);
        }
      }
    }
  }

  // ---- The volume descriptors ----

  /** An image a file can hold. */
  predicate IsFile(image: seq<byte>) {
    |image| < 0x8000_0000_0000_0000
  }

  /** Where the scan of the volume descriptors came to: a terminator or a failure, and what it last saw. */
  datatype Scanned = Scanned(terminated: bool, pd: Option<nat>, lvd: Option<nat>)

  function Scan(image: seq<byte>, sector: nat, pd: Option<nat>, lvd: Option<nat>): Scanned
    requires IsFile(image) && sector <= 0x10_0000_0000_0000
    decreases |image| - SECTOR * sector
  {
    match SectorAt(image, sector)
    case None => Scanned(false, pd, lvd)
    case Some(b) =>
      var tag := U16(b, 0);
      if tag == 8 then Scanned(true, pd, lvd)
      else Scan(image, sector + 1, if tag == 5 then Some(U32(b, 188)) else pd,
                if tag == 6 then Some(U48(b, 252)) else lvd)
  }

  /** What was seen before shows only where the scan sees nothing new. */
  lemma {:induction false} ScanForgets(image: seq<byte>, sector: nat, pd: Option<nat>, lvd: Option<nat>)
    requires IsFile(image) && sector <= 0x10_0000_0000_0000
    ensures var anew := Scan(image, sector, None, None);
            Scan(image, sector, pd, lvd) ==
            Scanned(anew.terminated, if anew.pd.Some? then anew.pd else pd, if anew.lvd.Some? then anew.lvd else lvd)
    decreases |image| - SECTOR * sector
  {
    match SectorAt(image, sector) {
      case None =>
      case Some(b) =>
        if U16(b, 0) != 8 {
          var pd1 := if U16(b, 0) == 5 then Some(U32(b, 188)) else None;
          var lvd1 := if U16(b, 0) == 6 then Some(U48(b, 252)) else None;
          ScanForgets(image, sector + 1, if pd1.Some? then pd1 else pd, if lvd1.Some? then lvd1 else lvd);
          ScanForgets(image, sector + 1, pd1, lvd1);
        }
    }
  }

  predicate Tagged(image: seq<byte>, sector: nat, tag: nat) {
    var b := SectorAt(image, sector);
    b.Some? && U16(b.value, 0) == tag
  }

  /** The last sector of a range with this tag. */
  function LastTagged(image: seq<byte>, from: nat, upto: nat, tag: nat): (n: Option<nat>)
    ensures n.Some? ==> from <= n.value < upto && Tagged(image, n.value, tag)
    decreases upto
  {
    if upto <= from then None
    else if Tagged(image, upto - 1, tag) then Some(upto - 1)
    else LastTagged(image, from, upto - 1, tag)
  }

  lemma {:induction false} LastTaggedFromFront(image: seq<byte>, from: nat, upto: nat, tag: nat)
    requires from < upto
    ensures LastTagged(image, from, upto, tag) ==
            if LastTagged(image, from + 1, upto, tag).Some? then LastTagged(image, from + 1, upto, tag)
            else if Tagged(image, from, tag) then Some(from) else None
    decreases upto
  {
    if from + 1 < upto && !Tagged(image, upto - 1, tag) {
      LastTaggedFromFront(image, from, upto - 1, tag);
    }
  }

  function PartitionIn(image: seq<byte>, n: Option<nat>): Option<nat> {
    if n.Some? && SectorAt(image, n.value).Some? then Some(U32(SectorAt(image, n.value).value, 188)) else None
  }

  function LogicalIn(image: seq<byte>, n: Option<nat>): Option<nat> {
    if n.Some? && SectorAt(image, n.value).Some? then Some(U48(SectorAt(image, n.value).value, 252)) else None
  }

  /** The sectors from here to the first terminator, or to the first that cannot be read. */
  predicate Stretch(image: seq<byte>, from: nat, end: nat) {
    from <= end && (SectorAt(image, end).None? || Tagged(image, end, 8))
    && forall n | from <= n < end :: SectorAt(image, n).Some? && !Tagged(image, n, 8)
  }

  /** One sector before a stretch shows only where the stretch has nothing of its kind. */
  lemma ScanNext(image: seq<byte>, sector: nat)
    requires IsFile(image) && sector <= 0x10_0000_0000_0000 && SectorAt(image, sector).Some? &&
             !Tagged(image, sector, 8)
    ensures var anew := Scan(image, sector + 1, None, None);
            Scan(image, sector, None, None) ==
            Scanned(anew.terminated,
                    if anew.pd.Some? then anew.pd
                      else PartitionIn(image, if Tagged(image, sector, 5) then Some(sector) else None),
                    if anew.lvd.Some? then anew.lvd
                      else LogicalIn(image, if Tagged(image, sector, 6) then Some(sector) else None))
  {
    var b := SectorAt(image, sector).value;
    ScanForgets(image, sector + 1, if U16(b, 0) == 5 then Some(U32(b, 188)) else None,
                if U16(b, 0) == 6 then Some(U48(b, 252)) else None);
  }

  lemma LaterShows(image: seq<byte>, from: nat, end: nat)
    requires from < end
    ensures var first := if Tagged(image, from, 5) then Some(from) else None;
            var later := PartitionIn(image, LastTagged(image, from + 1, end, 5));
            PartitionIn(image, LastTagged(image, from, end, 5)) ==
              if later.Some? then later else PartitionIn(image, first)
    ensures var first := if Tagged(image, from, 6) then Some(from) else None;
            var later := LogicalIn(image, LastTagged(image, from + 1, end, 6));
            LogicalIn(image, LastTagged(image, from, end, 6)) == if later.Some? then later else LogicalIn(image, first)
  {
    LastTaggedFromFront(image, from, end, 5);
    LastTaggedFromFront(image, from, end, 6);
  }

  lemma StretchOn(image: seq<byte>, from: nat, end: nat)
    requires Stretch(image, from, end) && from < end
    ensures Stretch(image, from + 1, end) && SectorAt(image, from).Some? && !Tagged(image, from, 8)
  {
  }

  lemma StretchOver(image: seq<byte>, end: nat)
    requires IsFile(image) && end <= 0x10_0000_0000_0000 && Stretch(image, end, end)
    ensures Scan(image, end, None, None) == Scanned(Tagged(image, end, 8), None, None)
  {
  }

  /** A scan keeps the stretch's last partition and logical volume descriptors, and ends well if a terminator does. */
  lemma {:induction false} ScanFindsLast(image: seq<byte>, sector: nat, end: nat)
    requires IsFile(image) && sector <= 0x10_0000_0000_0000 && Stretch(image, sector, end)
    ensures Scan(image, sector, None, None) ==
            Scanned(Tagged(image, end, 8), PartitionIn(image, LastTagged(image, sector, end, 5)),
                    LogicalIn(image, LastTagged(image, sector, end, 6)))
    decreases end - sector
  {
    if sector == end {
      StretchOver(image, end);
    } else {
      StretchOn(image, sector, end);
      SectorsFit(image, sector);
      ScanNext(image, sector);
      ScanFindsLast(image, sector + 1, end);
      LaterShows(image, sector, end);
    }
  }

  lemma SectorsFit(image: seq<byte>, sector: nat)
    requires IsFile(image) && sector <= 0x10_0000_0000_0000 && SectorAt(image, sector).Some?
    ensures sector + 1 <= 0x10_0000_0000_0000
  {
  }

  // ---- Mounting the image ----

  datatype Mounted = Mounted(partitionStart: nat, root: FileEntry)

  function Anchor(image: seq<byte>): Option<nat> {
    match SectorAt(image, 256)
    case None => None
    case Some(b) => if U16(b, 0) == 2 then Some(U32(b, 20)) else None
  }

  /** The root directory of the file set that the volume descriptors name. */
  function RootOf(image: seq<byte>, ps: nat, fsd: nat): Outcome<Mounted> {
    match SectorAt(image, ps + fsd)
    case None => Failed
    case Some(b) =>
      match SectorAt(image, ps + U48(b, 404))
      case None => Failed
      case Some(root) =>
        match EntryIn(root)
        case None => Stopped
        case Some(fe) => Ok(Mounted(ps, fe))
  }

  function Mount(image: seq<byte>): Outcome<Mounted>
    requires IsFile(image)
  {
    match Anchor(image)
    case None => Failed
    case Some(at) =>
      var s := Scan(image, at, None, None);
      if !s.terminated || s.pd.None? || s.lvd.None? then Failed
      else RootOf(image, s.pd.value, s.lvd.value)
  }

  function DirOf(image: seq<byte>, decode: Decoder, ps: nat, fe: FileEntry): Outcome<seq<Fid>> {
    if fe.ads == [] then Failed
    else
      match SectorsAt(image, ps + fe.ads[0].location, (fe.ads[0].length + SECTOR - 1) / SECTOR)
      case None => Failed
      case Some(buf) =>
        match ReadRecords(decode, buf, fe.ads[0].length)
        case None => Stopped
        case Some(files) => Ok(files)
  }

  function Status(m: Outcome<Mounted>): Outcome<()> {
    match m
    case Ok(_) => Ok(())
    case Failed => Failed
    case Stopped => Stopped
  }

  function ListOf(image: seq<byte>, decode: Decoder, m: Outcome<Mounted>, dir: Option<FileEntry>): Outcome<seq<Fid>> {
    match m
    case Ok(v) => DirOf(image, decode, v.partitionStart, if dir.Some? then dir.value else v.root)
    case Failed => Failed
    case Stopped => Stopped
  }

  class Reader {
    const image: seq<byte>
    const decode: Decoder
    var isInited: bool
    var pd: Option<nat>
    var lvd: Option<nat>
    var root: Option<FileEntry>

    /** What the fields hold is what this image's scan finds, now or after a failure. */
    ghost predicate Valid()
      reads this
    {
      && IsFile(image)
      && ((pd.None? && lvd.None?) ||
          (Anchor(image).Some? &&
           var s := Scan(image, Anchor(image).value, None, None); pd == s.pd && lvd == s.lvd))
      && (isInited ==> pd.Some? && root.Some? && Mount(image) == Ok(Mounted(pd.value, root.value)))
    }

    constructor (image: seq<byte>, decode: Decoder)
      requires IsFile(image)
      ensures Valid() && !isInited && this.image == image && this.decode == decode
    {
      this.image, this.decode := image, decode;
      isInited, pd, lvd, root := false, None, None, None;
    }

    function PartitionStart(): nat
      reads this
    {
      if pd.None? then 0 else pd.value
    }

    method ScanVolume(at: nat) returns (terminated: bool)
      requires IsFile(image) && at <= 0x10_0000_0000_0000
      modifies this`pd, this`lvd
      ensures Scanned(terminated, pd, lvd) == Scan(image, at, old(pd), old(lvd))
    {
      var sector := at;
      while true
        invariant sector <= 0x10_0000_0000_0000
        invariant Scan(image, sector, pd, lvd) == Scan(image, at, old(pd), old(lvd))
        decreases |image| - SECTOR * sector
      {
        var data := SectorAt(image, sector);
        if data.None? {
          return false;
        }
        var tag := U16(data.value, 0);
        if tag == 8 {
          return true;
        }
        if tag == 5 {
          pd := Some(U32(data.value, 188));
        } else if tag == 6 {
          lvd := Some(U48(data.value, 252));
        }
        sector := sector + 1;
      }
    }

    /** The root directory, once the volume descriptors are known. */
    method FindRoot(ps: nat, fsd: nat) returns (found: Outcome<FileEntry>)
      ensures match RootOf(image, ps, fsd)
              case Ok(m) => found == Ok(m.root) && m.partitionStart == ps
              case Failed => found == Failed
              case Stopped => found == Stopped
    {
      var data := SectorAt(image, ps + fsd);
      if data.None? {
        return Failed;
      }
      var rootData := SectorAt(image, ps + U48(data.value, 404));
      if rootData.None? {
        return Failed;
      }
      var entry := NewFileEntry(rootData.value);
      found := if entry.None? then Stopped else Ok(entry.value);
    }

    /** The first call that succeeds is the last that reads anything. */
    method Init() returns (done: Outcome<()>)
      requires Valid()
      modifies this
      ensures Valid()
      ensures done == Status(Mount(image)) && isInited == done.Ok?
      ensures old(isInited) ==> pd == old(pd) && lvd == old(lvd) && root == old(root)
    {
      if isInited {
        return Ok(());
      }
      var anchor := Anchor(image);
      if anchor.None? {
        return Failed;
      }
      ScanForgets(image, anchor.value, pd, lvd);
      var terminated := ScanVolume(anchor.value);
      if !terminated || pd.None? || lvd.None? {
        return Failed;
      }
      var found := FindRoot(PartitionStart(), lvd.value);
      match found {
        case Ok(fe) =>
          root := Some(fe);
          isInited := true;
          done := Ok(());
        case Failed => done := Failed;
        case Stopped => done := Stopped;
      }
    }

    method ReadEntries(ps: nat, fe: FileEntry) returns (files: Outcome<seq<Fid>>)
      ensures files == DirOf(image, decode, ps, fe)
    {
      if |fe.ads| == 0 {
        return Failed;
      }
      var length := fe.ads[0].length;
      var buf := SectorsAt(image, ps + fe.ads[0].location, (length + SECTOR - 1) / SECTOR);
      if buf.None? {
        return Failed;
      }
      var entries := ParseRecords(decode, buf.value, length);
      files := if entries.None? then Stopped else Ok(entries.value);
    }

    /** The named entries of a directory, or of the root. */
    method ReadDir(dir: Option<FileEntry>) returns (files: Outcome<seq<Fid>>)
      requires Valid()
      modifies this
      ensures Valid()
      ensures files == ListOf(image, decode, Mount(image), dir)
    {
      var done := Init();
      match done {
        case Ok(_) => files := ReadEntries(PartitionStart(), if dir.Some? then dir.value else root.value);
        case Failed => files := Failed;
        case Stopped => files := Stopped;
      }
    }
  }
}
