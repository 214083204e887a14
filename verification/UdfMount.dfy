/** Mounting a UDF image, byte for byte: where its anchor, its volume descriptors, its file set and its root directory
    have to be, and what the reader then knows. */
module UdfMount {
  import opened Models
  import opened UdfRecords
  import opened UdfReader

  /** These bytes stand at this offset. */
  predicate Stands(image: seq<byte>, at: nat, bytes: seq<byte>) {
    at + |bytes| <= |image| && image[at..at + |bytes|] == bytes
  }

  function Put64(n: nat): (b: seq<byte>)
    requires n < 0x1_0000_0000_0000_0000
    ensures |b| == 8
  {
    Put32(n % 0x1_0000_0000) + Put32(n / 0x1_0000_0000)
  }

  lemma Read64(b: seq<byte>, at: nat, n: nat)
    requires n < 0x1_0000_0000_0000_0000 && Stands(b, at, Put64(n))
    ensures U64(b, at) == n
  {
    assert b[at..at + 4] == b[at..at + 8][..4] && b[at + 4..at + 8] == b[at..at + 8][4..];
    Read32(b, at, n % 0x1_0000_0000);
    Read32(b, at + 4, n / 0x1_0000_0000);
  }

  lemma Sector(image: seq<byte>, n: nat)
    requires IsFile(image) && 2048 * (n + 1) <= |image|
    ensures SectorAt(image, n) == Some(image[2048 * n..2048 * n + 2048])
  {
  }

  /** Reading a number in a sector is reading it in the image. */
  lemma InSector(image: seq<byte>, n: nat, at: nat, bytes: seq<byte>)
    requires at + |bytes| <= 2048 && 2048 * (n + 1) <= |image| && Stands(image, 2048 * n + at, bytes)
    ensures Stands(image[2048 * n..2048 * n + 2048], at, bytes)
  {
    SliceOfSlice(image, 2048 * n, 2048, at, |bytes|);
  }

  lemma SliceOfSlice(s: seq<byte>, from: nat, size: nat, at: nat, length: nat)
    requires from + size <= |s| && at + length <= size
    ensures s[from..from + size][at..at + length] == s[from + at..from + at + length]
  {
    var a, b := s[from..from + size][at..at + length], s[from + at..from + at + length];
    assert forall i | 0 <= i < length :: a[i] == b[i];
    assert a == b;
  }

  // ---- File entries ----

  /** This descriptor stands here: the length, then the location. */
  predicate ExtentStands(b: seq<byte>, at: nat, e: Extent) {
    && e.length < 0x1_0000_0000 && e.location < 0x1_0000_0000
    && Stands(b, at, Put32(e.length)) && Stands(b, at + 4, Put32(e.location))
  }

  /** A file entry of this type and length, with these descriptors behind so many bytes of extended attributes. */
  predicate EntryStands(b: seq<byte>, at: nat, kind: byte, length: nat, attributes: nat, ads: seq<Extent>) {
    && length < 0x1_0000_0000_0000_0000 && 176 + attributes + 8 * |ads| <= 2048
    && Stands(b, at + 27, [kind]) && Stands(b, at + 56, Put64(length))
    && Stands(b, at + 168, Put32(attributes)) && Stands(b, at + 172, Put32(8 * |ads|))
    && forall i | 0 <= i < |ads| :: ExtentStands(b, at + 176 + attributes + 8 * i, ads[i])
  }

  /** An entry that is written so is read so. */
  lemma EntryReads(b: seq<byte>, kind: byte, length: nat, attributes: nat, ads: seq<Extent>)
    requires |b| == 2048 && EntryStands(b, 0, kind, length, attributes, ads)
    ensures EntryIn(b) == Some(FileEntry(Some(kind), length, ads))
  {
    Read32(b, 168, attributes);
    Read32(b, 172, 8 * |ads|);
    Read64(b, 56, length);
    assert b[27..28][0] == kind;
    EntryInIff(b, attributes, |ads|);
    ExtentsRead(b, 176 + attributes, ads, EntryIn(b).value.ads);
  }

  lemma ExtentsRead(b: seq<byte>, at: nat, ads: seq<Extent>, read: seq<Extent>)
    requires at + 8 * |ads| <= |b| && |read| == |ads|
    requires forall i | 0 <= i < |ads| :: ExtentStands(b, at + 8 * i, ads[i]) && read[i] == ExtentIn(b, at + 8 * i)
    ensures read == ads
  {
    forall i | 0 <= i < |ads| ensures read[i] == ads[i] {
      assert ExtentStands(b, at + 8 * i, ads[i]);
      Read32(b, at + 8 * i, ads[i].length);
      Read32(b, at + 8 * i + 4, ads[i].location);
    }
  }

  lemma EntryInSector(image: seq<byte>, n: nat, kind: byte, length: nat, attributes: nat, ads: seq<Extent>)
    requires 2048 * (n + 1) <= |image| && EntryStands(image, 2048 * n, kind, length, attributes, ads)
    ensures EntryStands(image[2048 * n..2048 * n + 2048], 0, kind, length, attributes, ads)
  {
    InSector(image, n, 27, [kind]);
    InSector(image, n, 56, Put64(length));
    InSector(image, n, 168, Put32(attributes));
    InSector(image, n, 172, Put32(8 * |ads|));
    forall i | 0 <= i < |ads|
      ensures ExtentStands(image[2048 * n..2048 * n + 2048], 176 + attributes + 8 * i, ads[i])
    {
      assert ExtentStands(image, 2048 * n + 176 + attributes + 8 * i, ads[i]);
      InSector(image, n, 176 + attributes + 8 * i, Put32(ads[i].length));
      InSector(image, n, 176 + attributes + 8 * i + 4, Put32(ads[i].location));
    }
  }

  // ---- Volume descriptors ----

  /** A sector that starts with this tag. */
  predicate TagStands(image: seq<byte>, n: nat, tag: nat)
    requires tag < 0x1_0000
  {
    2048 * (n + 1) <= |image| && Stands(image, 2048 * n, Put16(tag))
  }

  lemma TagIff(image: seq<byte>, n: nat, tag: nat)
    requires IsFile(image) && 2048 * (n + 1) <= |image| && tag < 0x1_0000
    ensures Tagged(image, n, tag) <==> TagStands(image, n, tag)
  {
    Sector(image, n);
    var b := image[2048 * n..2048 * n + 2048];
    assert b[0] == image[2048 * n] && b[1] == image[2048 * n + 1];
    assert image[2048 * n..2048 * n + 2] == [b[0], b[1]];
    Number16(b, 0);
    if Stands(image, 2048 * n, Put16(tag)) {
      InSector(image, n, 0, Put16(tag));
      Read16(b, 0, tag);
    }
  }

  lemma Number16(b: seq<byte>, at: nat)
    requires at + 2 <= |b|
    ensures Put16(U16(b, at)) == [b[at], b[at + 1]]
  {
  }

  /** The anchor in sector 256 says where the volume descriptors start; from there they go on to the first terminator,
      in the sector end; the last partition descriptor and the last logical volume descriptor among them are in the
      sectors p and l. */
  predicate VolumeStands(image: seq<byte>, from: nat, p: nat, l: nat, end: nat, start: nat, fileSet: nat) {
    && from < 0x1_0000_0000 && start < 0x1_0000_0000 && fileSet < 0x1_0000_0000_0000
    && TagStands(image, 256, 2) && Stands(image, 2048 * 256 + 20, Put32(from))
    && from <= p < end && from <= l < end && TagStands(image, end, 8)
    && TagStands(image, p, 5) && Stands(image, 2048 * p + 188, Put32(start))
    && TagStands(image, l, 6) && Stands(image, 2048 * l + 252, Put48(fileSet))
    && (forall n | from <= n < end :: !TagStands(image, n, 8))
    && (forall n | p < n < end :: !TagStands(image, n, 5)) && (forall n | l < n < end :: !TagStands(image, n, 6))
  }

  lemma {:induction false} LastTaggedIs(image: seq<byte>, from: nat, upto: nat, tag: nat, at: nat)
    requires from <= at < upto && Tagged(image, at, tag) && forall n | at < n < upto :: !Tagged(image, n, tag)
    ensures LastTagged(image, from, upto, tag) == Some(at)
    decreases upto
  {
    if at < upto - 1 {
      LastTaggedIs(image, from, upto - 1, tag, at);
    }
  }

  lemma AnchorReads(image: seq<byte>, from: nat)
    requires IsFile(image) && from < 0x1_0000_0000
    requires TagStands(image, 256, 2) && Stands(image, 2048 * 256 + 20, Put32(from))
    ensures Anchor(image) == Some(from)
  {
    Sector(image, 256);
    TagIff(image, 256, 2);
    InSector(image, 256, 20, Put32(from));
    Read32(image[2048 * 256..2048 * 256 + 2048], 20, from);
  }

  lemma ScanReads(image: seq<byte>, from: nat, p: nat, l: nat, end: nat, start: nat, fileSet: nat)
    requires IsFile(image) && VolumeStands(image, from, p, l, end, start, fileSet)
    ensures Scan(image, from, None, None) == Scanned(true, Some(start), Some(fileSet))
  {
    VolumeTags(image, from, p, l, end, start, fileSet);
    ScanFindsLast(image, from, end);
    LastTaggedIs(image, from, end, 5, p);
    LastTaggedIs(image, from, end, 6, l);
    PartitionReads(image, p, start);
    LogicalReads(image, l, fileSet);
  }

  lemma VolumeTags(image: seq<byte>, from: nat, p: nat, l: nat, end: nat, start: nat, fileSet: nat)
    requires IsFile(image) && VolumeStands(image, from, p, l, end, start, fileSet)
    ensures Stretch(image, from, end) && Tagged(image, end, 8) && Tagged(image, p, 5) && Tagged(image, l, 6)
    ensures forall n | p < n < end :: !Tagged(image, n, 5)
    ensures forall n | l < n < end :: !Tagged(image, n, 6)
  {
    TagIff(image, end, 8);
    TagIff(image, p, 5);
    TagIff(image, l, 6);
    forall n | from <= n < end
      ensures SectorAt(image, n).Some? && !Tagged(image, n, 8)
      ensures (p < n ==> !Tagged(image, n, 5)) && (l < n ==> !Tagged(image, n, 6))
    {
      Sector(image, n);
      TagIff(image, n, 8);
      TagIff(image, n, 5);
      TagIff(image, n, 6);
    }
  }

  lemma PartitionReads(image: seq<byte>, p: nat, start: nat)
    requires IsFile(image) && start < 0x1_0000_0000 && 2048 * (p + 1) <= |image|
    requires Stands(image, 2048 * p + 188, Put32(start))
    ensures PartitionIn(image, Some(p)) == Some(start)
  {
    Sector(image, p);
    InSector(image, p, 188, Put32(start));
    Read32(image[2048 * p..2048 * p + 2048], 188, start);
  }

  lemma LogicalReads(image: seq<byte>, l: nat, fileSet: nat)
    requires IsFile(image) && fileSet < 0x1_0000_0000_0000 && 2048 * (l + 1) <= |image|
    requires Stands(image, 2048 * l + 252, Put48(fileSet))
    ensures LogicalIn(image, Some(l)) == Some(fileSet)
  {
    Sector(image, l);
    InSector(image, l, 252, Put48(fileSet));
    Read48(image[2048 * l..2048 * l + 2048], 252, fileSet);
  }

  /** The file set descriptor in sector start + fileSet names the root's entry in sector start + root. */
  predicate RootStands(image: seq<byte>, start: nat, fileSet: nat, root: nat, kind: byte, length: nat, attributes: nat,
                       ads: seq<Extent>) {
    && root < 0x1_0000_0000_0000 && 2048 * (start + fileSet + 1) <= |image| && 2048 * (start + root + 1) <= |image|
    && Stands(image, 2048 * (start + fileSet) + 404, Put48(root))
    && EntryStands(image, 2048 * (start + root), kind, length, attributes, ads)
  }

  lemma RootReads(image: seq<byte>, start: nat, fileSet: nat, root: nat, kind: byte, length: nat, attributes: nat,
                  ads: seq<Extent>)
    requires IsFile(image) && RootStands(image, start, fileSet, root, kind, length, attributes, ads)
    ensures RootOf(image, start, fileSet) == Ok(Mounted(start, FileEntry(Some(kind), length, ads)))
  {
    var b := FileSetReads(image, start + fileSet, root);
    var entry := EntryReadsAt(image, start + root, kind, length, attributes, ads);
    RootOfIs(image, start, fileSet, root, b, entry);
  }

  lemma RootOfIs(image: seq<byte>, start: nat, fileSet: nat, root: nat, b: seq<byte>, entry: seq<byte>)
    requires SectorAt(image, start + fileSet) == Some(b) && |b| == 2048 && U48(b, 404) == root
    requires SectorAt(image, start + root) == Some(entry)
    ensures RootOf(image, start, fileSet) ==
            if EntryIn(entry).Some? then Ok(Mounted(start, EntryIn(entry).value)) else Stopped
  {
  }

  lemma FileSetReads(image: seq<byte>, n: nat, root: nat) returns (b: seq<byte>)
    requires IsFile(image) && root < 0x1_0000_0000_0000 && 2048 * (n + 1) <= |image|
    requires Stands(image, 2048 * n + 404, Put48(root))
    ensures SectorAt(image, n) == Some(b) && |b| == 2048 && U48(b, 404) == root
  {
    b := image[2048 * n..2048 * n + 2048];
    Sector(image, n);
    InSector(image, n, 404, Put48(root));
    Read48(b, 404, root);
  }

  lemma EntryReadsAt(image: seq<byte>, n: nat, kind: byte, length: nat, attributes: nat, ads: seq<Extent>)
    returns (b: seq<byte>)
    requires IsFile(image) && 2048 * (n + 1) <= |image| && EntryStands(image, 2048 * n, kind, length, attributes, ads)
    ensures SectorAt(image, n) == Some(b) && |b| == 2048 && EntryIn(b) == Some(FileEntry(Some(kind), length, ads))
  {
    b := image[2048 * n..2048 * n + 2048];
    Sector(image, n);
    EntryInSector(image, n, kind, length, attributes, ads);
    EntryReads(b, kind, length, attributes, ads);
  }

  /** An image with its parts in these places is mounted as just that, whatever else it holds. */
  lemma MountReads(image: seq<byte>, from: nat, p: nat, l: nat, end: nat, start: nat, fileSet: nat, root: nat,
                   kind: byte, length: nat, attributes: nat, ads: seq<Extent>)
    requires IsFile(image) && VolumeStands(image, from, p, l, end, start, fileSet)
    requires RootStands(image, start, fileSet, root, kind, length, attributes, ads)
    ensures Mount(image) == Ok(Mounted(start, FileEntry(Some(kind), length, ads)))
  {
    AnchorReads(image, from);
    ScanReads(image, from, p, l, end, start, fileSet);
    RootReads(image, start, fileSet, root, kind, length, attributes, ads);
  }

  // ---- And only such images are mounted ----

  /** A number that is read is what stands there. */
  lemma Number32(b: seq<byte>, at: nat)
    requires at + 4 <= |b|
    ensures Stands(b, at, Put32(U32(b, at)))
  {
    var low, high := U16(b, at), U16(b, at + 2);
    assert U32(b, at) % 0x1_0000 == low && U32(b, at) / 0x1_0000 == high;
    Number16(b, at);
    Number16(b, at + 2);
    assert b[at..at + 4] == [b[at], b[at + 1]] + [b[at + 2], b[at + 3]];
  }

  lemma Number48(b: seq<byte>, at: nat)
    requires at + 6 <= |b|
    ensures Stands(b, at, Put48(U48(b, at)))
  {
    var low, high := U32(b, at), U16(b, at + 4);
    assert U48(b, at) % 0x1_0000_0000 == low && U48(b, at) / 0x1_0000_0000 == high;
    Number32(b, at);
    Number16(b, at + 4);
    assert b[at..at + 6] == b[at..at + 4] + [b[at + 4], b[at + 5]];
  }

  /** What stands in a sector stands in the image. */
  lemma OutOfSector(image: seq<byte>, n: nat, at: nat, bytes: seq<byte>)
    requires at + |bytes| <= 2048 && 2048 * (n + 1) <= |image| && Stands(image[2048 * n..2048 * n + 2048], at, bytes)
    ensures Stands(image, 2048 * n + at, bytes)
  {
    SliceOfSlice(image, 2048 * n, 2048, at, |bytes|);
  }

  lemma SectorInside(image: seq<byte>, n: nat)
    requires IsFile(image) && n <= 0x10_0000_0000_0000 && SectorAt(image, n).Some?
    ensures 2048 * (n + 1) <= |image| && SectorAt(image, n).value == image[2048 * n..2048 * n + 2048]
  {
  }

  lemma {:induction false} ScanEnds(image: seq<byte>, sector: nat) returns (end: nat)
    requires IsFile(image) && sector <= 0x10_0000_0000_0000 && Scan(image, sector, None, None).terminated
    ensures Stretch(image, sector, end) && Tagged(image, end, 8) && end <= 0x10_0000_0000_0000
    decreases |image| - 2048 * sector
  {
    if Tagged(image, sector, 8) {
      end := sector;
    } else {
      SectorInside(image, sector);
      ScanNext(image, sector);
      end := ScanEnds(image, sector + 1);
    }
  }

  lemma {:induction false} NoneTagged(image: seq<byte>, from: nat, upto: nat, tag: nat, n: nat)
    requires from <= n < upto
    requires LastTagged(image, from, upto, tag).Some? ==> LastTagged(image, from, upto, tag).value < n
    ensures !Tagged(image, n, tag)
    decreases upto
  {
    if n < upto - 1 {
      NoneTagged(image, from, upto - 1, tag, n);
    }
  }

  lemma AnchorStands(image: seq<byte>, from: nat)
    requires IsFile(image) && Anchor(image) == Some(from)
    ensures from < 0x1_0000_0000 && TagStands(image, 256, 2) && Stands(image, 2048 * 256 + 20, Put32(from))
  {
    SectorInside(image, 256);
    TagIff(image, 256, 2);
    Number32(SectorAt(image, 256).value, 20);
    OutOfSector(image, 256, 20, Put32(from));
  }

  lemma PartitionStands(image: seq<byte>, p: nat, start: nat)
    requires IsFile(image) && p <= 0x10_0000_0000_0000 && PartitionIn(image, Some(p)) == Some(start)
    ensures start < 0x1_0000_0000 && 2048 * (p + 1) <= |image| && Stands(image, 2048 * p + 188, Put32(start))
  {
    SectorInside(image, p);
    Number32(SectorAt(image, p).value, 188);
    OutOfSector(image, p, 188, Put32(start));
  }

  lemma LogicalStands(image: seq<byte>, l: nat, fileSet: nat)
    requires IsFile(image) && l <= 0x10_0000_0000_0000 && LogicalIn(image, Some(l)) == Some(fileSet)
    ensures fileSet < 0x1_0000_0000_0000 && 2048 * (l + 1) <= |image| && Stands(image, 2048 * l + 252, Put48(fileSet))
  {
    SectorInside(image, l);
    Number48(SectorAt(image, l).value, 252);
    OutOfSector(image, l, 252, Put48(fileSet));
  }

  lemma ScanStands(image: seq<byte>, from: nat, start: nat, fileSet: nat) returns (p: nat, l: nat, end: nat)
    requires IsFile(image) && Anchor(image) == Some(from)
    requires Scan(image, from, None, None) == Scanned(true, Some(start), Some(fileSet))
    ensures VolumeStands(image, from, p, l, end, start, fileSet)
  {
    AnchorStands(image, from);
    end := ScanEnds(image, from);
    ScanFindsLast(image, from, end);
    p, l := LastTagged(image, from, end, 5).value, LastTagged(image, from, end, 6).value;
    PartitionStands(image, p, start);
    LogicalStands(image, l, fileSet);
    SectorInside(image, end);
    TagIff(image, end, 8);
    TagIff(image, p, 5);
    TagIff(image, l, 6);
    forall n | from <= n < end
      ensures !TagStands(image, n, 8)
      ensures (p < n ==> !TagStands(image, n, 5)) && (l < n ==> !TagStands(image, n, 6))
    {
      SectorInside(image, n);
      TagIff(image, n, 8);
      TagIff(image, n, 5);
      TagIff(image, n, 6);
      if p < n {
        NoneTagged(image, from, end, 5, n);
      }
      if l < n {
        NoneTagged(image, from, end, 6, n);
      }
    }
  }

  /** A mounted image has all its parts in these places. */
  lemma MountedStands(image: seq<byte>)
    returns (from: nat, p: nat, l: nat, end: nat, fileSet: nat, root: nat)
    requires IsFile(image) && Mount(image).Ok?
    ensures var start := Mount(image).value.partitionStart;
            && VolumeStands(image, from, p, l, end, start, fileSet)
            && root < 0x1_0000_0000_0000 && 2048 * (start + fileSet + 1) <= |image|
            && 2048 * (start + root + 1) <= |image|
            && Stands(image, 2048 * (start + fileSet) + 404, Put48(root))
            && EntryIn(image[2048 * (start + root)..2048 * (start + root) + 2048]) == Some(Mount(image).value.root)
  {
    var start: nat;
    from, start, fileSet := MountFound(image);
    p, l, end := ScanStands(image, from, start, fileSet);
    root := RootFound(image, start, fileSet);
  }

  lemma MountFound(image: seq<byte>) returns (from: nat, start: nat, fileSet: nat)
    requires IsFile(image) && Mount(image).Ok?
    ensures Anchor(image) == Some(from)
    ensures Scan(image, from, None, None) == Scanned(true, Some(start), Some(fileSet))
    ensures start < 0x1_0000_0000 && fileSet < 0x1_0000_0000_0000
    ensures RootOf(image, start, fileSet) == Mount(image) && Mount(image).value.partitionStart == start
  {
    from := Anchor(image).value;
    var s := Scan(image, from, None, None);
    start, fileSet := s.pd.value, s.lvd.value;
    var p, l, end := ScanStands(image, from, start, fileSet);
  }

  lemma RootFound(image: seq<byte>, start: nat, fileSet: nat) returns (root: nat)
    requires IsFile(image) && start < 0x1_0000_0000 && fileSet < 0x1_0000_0000_0000
    requires RootOf(image, start, fileSet).Ok?
    ensures root < 0x1_0000_0000_0000 && 2048 * (start + fileSet + 1) <= |image|
    ensures 2048 * (start + root + 1) <= |image| && Stands(image, 2048 * (start + fileSet) + 404, Put48(root))
    ensures EntryIn(image[2048 * (start + root)..2048 * (start + root) + 2048])
            == Some(RootOf(image, start, fileSet).value.root)
  {
    var b, entry;
    b, root, entry := RootOfNeeds(image, start, fileSet);
    FileSetStands(image, start + fileSet, b, root);
    SectorIs(image, start + root, entry);
  }

  lemma RootOfNeeds(image: seq<byte>, start: nat, fileSet: nat) returns (b: seq<byte>, root: nat, entry: seq<byte>)
    requires RootOf(image, start, fileSet).Ok?
    ensures SectorAt(image, start + fileSet) == Some(b) && |b| == 2048 && root == U48(b, 404)
    ensures SectorAt(image, start + root) == Some(entry) && |entry| == 2048
    ensures EntryIn(entry) == Some(RootOf(image, start, fileSet).value.root)
  {
    b := SectorAt(image, start + fileSet).value;
    root := U48(b, 404);
    entry := SectorAt(image, start + root).value;
  }

  lemma SectorIs(image: seq<byte>, n: nat, b: seq<byte>)
    requires IsFile(image) && n <= 0x10_0000_0000_0000 && SectorAt(image, n) == Some(b)
    ensures 2048 * (n + 1) <= |image| && b == image[2048 * n..2048 * n + 2048]
  {
    SectorInside(image, n);
  }

  lemma FileSetStands(image: seq<byte>, n: nat, b: seq<byte>, root: nat)
    requires IsFile(image) && n <= 0x10_0000_0000_0000 && SectorAt(image, n) == Some(b) && |b| == 2048
    requires root == U48(b, 404)
    ensures root < 0x1_0000_0000_0000 && 2048 * (n + 1) <= |image| && Stands(image, 2048 * n + 404, Put48(root))
  {
    SectorIs(image, n, b);
    Number48(b, 404);
    OutOfSector(image, n, 404, Put48(root));
  }

  // ---- The root's listing ----

  lemma DirectoryStands(image: seq<byte>, n: nat, count: nat, bytes: seq<byte>)
    requires IsFile(image) && 2048 * (n + count) <= |image| && count == (|bytes| + 2047) / 2048
    requires Stands(image, 2048 * n, bytes) && 2048 * n < 0x8000_0000_0000_0000
    ensures SectorsAt(image, n, count).Some?
    ensures |SectorsAt(image, n, count).value| == 2048 * count
    ensures exists tail :: SectorsAt(image, n, count).value == bytes + tail
  {
    var buf := image[2048 * n..2048 * n + 2048 * count];
    assert buf == image[2048 * n..2048 * n + |bytes|] + buf[|bytes|..];
    assert SectorsAt(image, n, count).value == bytes + buf[|bytes|..];
  }

  /** The root's listing of such an image: the named records written at its first extent, in order, or the program
      stops at one that cannot be read. */
  lemma RootListing(image: seq<byte>, decode: Decoder, from: nat, p: nat, l: nat, end: nat, start: nat, fileSet: nat,
                    root: nat, kind: byte, length: nat, attributes: nat, ads: seq<Extent>, records: seq<Record>)
    requires IsFile(image) && VolumeStands(image, from, p, l, end, start, fileSet)
    requires RootStands(image, start, fileSet, root, kind, length, attributes, ads) && ads != []
    requires forall r <- records :: WellFormed(r)
    requires ads[0].length == |EncodeAll(records)| < 0x4000_0000
    requires 2048 * (start + ads[0].location + (ads[0].length + 2047) / 2048) <= |image|
    requires Stands(image, 2048 * (start + ads[0].location), EncodeAll(records))
    ensures var room := 2048 * ((ads[0].length + 2047) / 2048);
            ListOf(image, decode, Mount(image), None) ==
            if AllReadable(records, room) then Ok(SeenAll(decode, records)) else Stopped
  {
    MountReads(image, from, p, l, end, start, fileSet, root, kind, length, attributes, ads);
    var fe := FileEntry(Some(kind), length, ads);
    DirectoryReads(image, decode, start, fe, records);
    RootIsListed(image, decode, Mount(image), start, fe);
  }

  lemma RootIsListed(image: seq<byte>, decode: Decoder, m: Outcome<Mounted>, start: nat, fe: FileEntry)
    requires m == Ok(Mounted(start, fe))
    ensures ListOf(image, decode, m, None) == DirOf(image, decode, start, fe)
  {
  }

  lemma DirectoryReads(image: seq<byte>, decode: Decoder, start: nat, fe: FileEntry, records: seq<Record>)
    requires IsFile(image) && fe.ads != [] && forall r <- records :: WellFormed(r)
    requires fe.ads[0].length == |EncodeAll(records)| < 0x4000_0000
    requires 2048 * (start + fe.ads[0].location + (fe.ads[0].length + 2047) / 2048) <= |image|
    requires Stands(image, 2048 * (start + fe.ads[0].location), EncodeAll(records))
    ensures DirOf(image, decode, start, fe) ==
            if AllReadable(records, 2048 * ((fe.ads[0].length + 2047) / 2048)) then Ok(SeenAll(decode, records))
            else Stopped
  {
    var n, count := start + fe.ads[0].location, (fe.ads[0].length + 2047) / 2048;
    DirectoryStands(image, n, count, EncodeAll(records));
    var buf := SectorsAt(image, n, count).value;
    BufferReads(decode, records, EncodeAll(records), buf);
    DirOfIs(image, decode, start, fe, buf);
  }

  lemma DirOfIs(image: seq<byte>, decode: Decoder, start: nat, fe: FileEntry, buf: seq<byte>)
    requires fe.ads != []
    requires SectorsAt(image, start + fe.ads[0].location, (fe.ads[0].length + 2047) / 2048) == Some(buf)
    ensures DirOf(image, decode, start, fe) ==
            var files := ReadRecords(decode, buf, fe.ads[0].length); if files.Some? then Ok(files.value) else Stopped
  {
  }

  lemma BufferReads(decode: Decoder, records: seq<Record>, bytes: seq<byte>, buf: seq<byte>)
    requires (forall r <- records :: WellFormed(r)) && bytes == EncodeAll(records) && |bytes| < 0x4000_0000
    requires exists tail :: buf == bytes + tail
    ensures ReadRecords(decode, buf, |bytes|) ==
            if AllReadable(records, |buf|) then Some(SeenAll(decode, records)) else None
  {
    var tail :| buf == bytes + tail;
    ReadDirIff(decode, records, tail);
  }
}
