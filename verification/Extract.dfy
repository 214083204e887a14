/** Unpacking an ISO 9660 directory tree, where a file may be several entries in a row, one for each extent. */
module Extract {
  import opened Models
  import G = Groups

  datatype Entry =
    | File(name: string, bytes: seq<int>)
    | Dir(name: string, readable: bool, children: seq<Entry>)

  predicate Kept(e: Entry) {
    e.name !in ["", ".", ".."]
  }

  // ---- Names ----

  predicate Invalid(c: char) {
    c in "\0<>:\"|?*"
  }

  predicate Printable(c: char) {
    c >= ' ' || c == '\t' || c == '\n'
  }

  function Sanitised(name: string): string {
    if name == "" then ""
    else
      var c := if Invalid(name[0]) then '_' else name[0];
      if Printable(c) then [c] + Sanitised(name[1..]) else Sanitised(name[1..])
  }

  /** What becomes of one character, and names character by character. */
  lemma SanitisedCharacter(c: char)
    ensures Sanitised([c]) ==
            if c as int == 0 || c in {'<', '>', ':', '\"', '|', '?', '*'} then "_"
            else if c as int >= 32 || c as int == 9 || c as int == 10 then [c]
            else ""
  {
    assert [c][1..] == "" && Sanitised("") == "";
  }

  lemma {:induction false} SanitisedAppend(a: string, b: string)
    ensures Sanitised(a + b) == Sanitised(a) + Sanitised(b)
    decreases |a|
  {
    if a == "" {
      assert a + b == b;
    } else {
      assert (a + b)[1..] == a[1..] + b;
      SanitisedAppend(a[1..], b);
    }
  }

  predicate Clean(name: string) {
    forall i | 0 <= i < |name| :: !Invalid(name[i]) && Printable(name[i])
  }

  /** A sanitised name is clean, and only a clean name is left as it was. */
  lemma {:induction false} SanitisedIsClean(name: string)
    ensures Clean(Sanitised(name)) && |Sanitised(name)| <= |name|
    ensures Sanitised(name) == name <==> Clean(name)
    decreases |name|
  {
    if name != "" {
      SanitisedIsClean(name[1..]);
      var c := if Invalid(name[0]) then '_' else name[0];
      assert name == [name[0]] + name[1..];
      if Printable(c) {
        assert Sanitised(name)[1..] == Sanitised(name[1..]) && Sanitised(name)[0] == c;
      }
    }
  }

  // ---- Paths ----

  /** The names from the root down. */
  type Path = seq<string>

  function Move(at: Path, seg: string): Path {
    if seg in ["", "."] then at
    else if seg != ".." then at + [seg]
    else if at == [] then []
    else at[..|at| - 1]
  }

  function Resolve(at: Path, segs: seq<string>): Path
    decreases |segs|
  {
    if segs == [] then at else Resolve(Move(at, segs[0]), segs[1..])
  }

  /** Two folders above one path lie one above the other. */
  lemma OneWayUp(p: Path, q: Path, path: Path)
    ensures p <= path && q <= path ==> p <= q || q <= p
  {
    if p <= path && q <= path {
      assert p == path[..|p|] && q == path[..|q|];
      assert if |p| <= |q| then p == q[..|p|] else q == p[..|q|];
    }
  }

  /** filepath.Join */
  function Join(dest: Path, name: string): Path {
    Resolve(dest, G.Split(name))
  }

  /** Where an entry of the directory that goes to dest goes. */
  function Place(dest: Path, e: Entry): Path {
    Join(dest, Sanitised(e.name))
  }

  // ---- The disk ----

  datatype Node = Folder | Regular(bytes: seq<int>)

  type Nodes = map<Path, Node>

  predicate IsFolder(nodes: Nodes, path: Path) {
    path in nodes && nodes[path].Folder?
  }

  function Prefixes(path: Path): (r: set<Path>)
    ensures forall q :: q in r <==> q <= path
  {
    var r := set k | 0 <= k <= |path| :: path[..k];
    assert forall q | q <= path :: q == path[..|q|];
    r
  }

  /** A folder to make, or a file to write; whole is what all extents of that file would give. */
  datatype Item =
    | MakeDir(path: Path)
    | WriteFile(path: Path, bytes: seq<int>, whole: seq<int>)

  /** os.MkdirAll fails exactly when the path or one above it is a file, os.Create when the path is a folder or there is
      no folder to hold it. */
  predicate Fits(nodes: Nodes, x: Item) {
    match x
    case MakeDir(path) => forall q <- nodes :: q <= path ==> nodes[q].Folder?
    case WriteFile(path, _, _) => path != [] && IsFolder(nodes, path[..|path| - 1]) && !IsFolder(nodes, path)
  }

  function Do(nodes: Nodes, x: Item): Nodes {
    match x
    case MakeDir(path) => map q | q in nodes.Keys + Prefixes(path) :: if q <= path then Folder else nodes[q]
    case WriteFile(path, bytes, _) => nodes[path := Regular(bytes)]
  }

  /** What was done, and what was skipped with a warning: the item, and the bytes that are not written for it. */
  datatype Event = Done(item: Item) | Skipped(item: Item, lost: seq<int>)

  datatype State = State(nodes: Nodes, log: seq<Event>)

  function Try(s: State, x: Item, lost: seq<int>): State {
    if Fits(s.nodes, x) then State(Do(s.nodes, x), s.log + [Done(x)]) else s.(log := s.log + [Skipped(x, lost)])
  }

  // ---- Runs of entries ----

  predicate SameFile(a: Entry, b: Entry) {
    a.File? && b.File? && a.name == b.name
  }

  /** The end of the run of equally named files that starts at i. */
  function RunEnd(children: seq<Entry>, i: nat): (j: nat)
    requires i < |children|
    ensures i < j <= |children|
    ensures children[i].File? ==> forall k | i <= k < j :: SameFile(children[i], children[k])
    ensures j < |children| ==> !SameFile(children[j - 1], children[j])
    decreases |children| - i
  {
    if i + 1 < |children| && SameFile(children[i], children[i + 1]) then RunEnd(children, i + 1) else i + 1
  }

  function Bytes(extents: seq<Entry>): seq<int> {
    if extents == [] then []
    else Bytes(extents[..|extents| - 1]) + (if extents[|extents| - 1].File? then extents[|extents| - 1].bytes else [])
  }

  /** All extents of a file of a directory, wherever in the directory they are. */
  function Whole(children: seq<Entry>, name: string): seq<int> {
    if children == [] then []
    else
      var n := |children| - 1;
      Whole(children[..n], name) + (if children[n].File? && children[n].name == name then children[n].bytes else [])
  }

  /** The bytes of the kept files, entry by entry. */
  function AllBytes(children: seq<Entry>, i: nat): seq<int>
    requires i <= |children|
    decreases children, |children| - i
  {
    if i == |children| then [] else EntryBytes(children[i]) + AllBytes(children, i + 1)
  }

  function EntryBytes(e: Entry): seq<int> {
    if !Kept(e) then [] else if e.File? then e.bytes else if e.readable then AllBytes(e.children, 0) else []
  }

  /** The run of extents that starts at i. */
  function RunItem(children: seq<Entry>, dest: Path, i: nat): Item
    requires i < |children|
  {
    WriteFile(Place(dest, children[i]), Bytes(children[i..RunEnd(children, i)]), Whole(children, children[i].name))
  }

  // ---- Unpacking ----

  /** The entry after the one at i, or after its run. */
  function Next(children: seq<Entry>, i: nat): (j: nat)
    requires i < |children|
    ensures i < j <= |children|
  {
    if Kept(children[i]) && children[i].File? then RunEnd(children, i) else i + 1
  }

  /** The entries from i on, one after another, into the folder dest. */
  function Unpack(s: State, children: seq<Entry>, dest: Path, i: nat): State
    requires i <= |children|
    decreases children, |children| - i, 1
  {
    if i == |children| then s else Unpack(UnpackEntry(s, children, dest, i), children, dest, Next(children, i))
  }

  /** The entry at i, or the run of extents that starts there. */
  function UnpackEntry(s: State, children: seq<Entry>, dest: Path, i: nat): State
    requires i < |children|
    decreases children, |children| - i, 0
  {
    var e := children[i];
    if !Kept(e) then s
    else if e.Dir? then UnpackDir(s, e, Place(dest, e))
    else Try(s, RunItem(children, dest, i), Bytes(children[i..RunEnd(children, i)]))
  }

  function UnpackDir(s: State, e: Entry, path: Path): State
    requires e.Dir?
    decreases e, 0, 0
  {
    var t := Try(s, MakeDir(path), EntryBytes(e));
    if e.readable && Fits(s.nodes, MakeDir(path)) then Unpack(t, e.children, path, 0) else t
  }

  class Disk {
    var nodes: Nodes
    ghost var log: seq<Event>

    ghost function Now(): State
      reads this
    {
      State(nodes, log)
    }

    /** os.MkdirAll */
    method MkdirAll(path: Path, ghost lost: seq<int>) returns (ok: bool)
      modifies this
      ensures ok == Fits(old(nodes), MakeDir(path)) && Now() == Try(old(Now()), MakeDir(path), lost)
    {
      ok := Fits(nodes, MakeDir(path));
      log := Try(Now(), MakeDir(path), lost).log;
      if ok {
        nodes := Do(nodes, MakeDir(path));
      }
    }

    /** Creates the file, or empties it, and copies the extents into it. */
    method ExtractFile(extents: seq<Entry>, path: Path, ghost whole: seq<int>) returns (ok: bool)
      modifies this
      ensures var x := WriteFile(path, Bytes(extents), whole);
              ok == Fits(old(nodes), x) && Now() == Try(old(Now()), x, x.bytes)
    {
      ghost var x := WriteFile(path, Bytes(extents), whole);
      log := Try(Now(), x, x.bytes).log;
      ghost var told := log;
      if path == [] || !IsFolder(nodes, path[..|path| - 1]) || IsFolder(nodes, path) {
        return false;
      }
      nodes := nodes[path := Regular([])];
      for k := 0 to |extents|
        invariant path in nodes && nodes[path] == Regular(Bytes(extents[..k]))
        invariant nodes == old(nodes)[path := nodes[path]] && log == told
      {
        assert extents[..k + 1][..k] == extents[..k];
        if extents[k].File? {
          nodes := nodes[path := Regular(nodes[path].bytes + extents[k].bytes)];
        }
      }
      assert extents[..|extents|] == extents;
      ok := true;
    }

    /** A file entry and the equally named files right after it. */
    method CollectExtents(children: seq<Entry>, at: nat) returns (extents: seq<Entry>, next: nat)
      requires at < |children| && children[at].File?
      ensures next == RunEnd(children, at) && extents == children[at..next]
    {
      extents := [children[at]];
      var i := at;
      while i + 1 < |children| && !children[i + 1].Dir? && children[i + 1].name == children[at].name
        invariant at <= i < |children| && SameFile(children[at], children[i]) && extents == children[at..i + 1]
        invariant RunEnd(children, at) == RunEnd(children, i)
      {
        i := i + 1;
        extents := extents + [children[i]];
      }
      next := i + 1;
    }

    /** The entry at i, or the run of extents that starts there. */
    method ExtractEntry(children: seq<Entry>, dest: Path, i: nat) returns (next: nat)
      requires i < |children|
      modifies this
      ensures next == Next(children, i) && Now() == UnpackEntry(old(Now()), children, dest, i)
      decreases children, 0
    {
      var child := children[i];
      if child.name == "" || child.name == "." || child.name == ".." {
        return i + 1;
      }
      var path := Place(dest, child);
      if child.Dir? {
        var made := MkdirAll(path, EntryBytes(child));
        if made && child.readable {
          ExtractDirectory(child.children, path);
        }
        next := i + 1;
      } else {
        var extents;
        extents, next := CollectExtents(children, i);
        var written := ExtractFile(extents, path, Whole(children, child.name));
      }
    }

    method ExtractDirectory(children: seq<Entry>, dest: Path)
      modifies this
      ensures Now() == Unpack(old(Now()), children, dest, 0)
      decreases children, 1
    {
      var i := 0;
      while i < |children|
        invariant 0 <= i <= |children|
        invariant Unpack(Now(), children, dest, i) == Unpack(old(Now()), children, dest, 0)
      {
        i := ExtractEntry(children, dest, i);
      }
    }
  }

  // ---- Nothing is dropped in silence and nothing is made up ----

  /** The bytes that an event accounts for: written, or reported as lost. */
  function BytesOf(e: Event): seq<int> {
    match e
    case Done(WriteFile(_, bytes, _)) => bytes
    case Done(MakeDir(_)) => []
    case Skipped(_, lost) => lost
  }

  function Told(log: seq<Event>): seq<int> {
    if log == [] then [] else Told(log[..|log| - 1]) + BytesOf(log[|log| - 1])
  }

  lemma TryTells(s: State, x: Item, lost: seq<int>)
    ensures var t := Try(s, x, lost);
            Told(t.log) == Told(s.log) + if x.WriteFile? && Fits(s.nodes, x) then x.bytes
                                         else if Fits(s.nodes, x) then [] else lost
  {
    var t := Try(s, x, lost);
    assert t.log[..|t.log| - 1] == s.log;
  }

  lemma BytesSnoc(extents: seq<Entry>, last: Entry)
    requires last.File?
    ensures Bytes(extents + [last]) == Bytes(extents) + last.bytes
  {
    assert (extents + [last])[..|extents|] == extents;
  }

  lemma AllBytesFile(children: seq<Entry>, k: nat)
    requires k < |children| && children[k].File? && Kept(children[k])
    ensures AllBytes(children, k) == children[k].bytes + AllBytes(children, k + 1)
  {
  }

  lemma Regroup(a: seq<int>, b: seq<int>, c: seq<int>)
    ensures a + (b + c) == a + b + c
  {
  }

  lemma {:induction false} RunBytes(children: seq<Entry>, i: nat, j: nat)
    requires i <= j <= |children| && forall k | i <= k < j :: children[k].File? && Kept(children[k])
    ensures AllBytes(children, i) == Bytes(children[i..j]) + AllBytes(children, j)
    decreases j
  {
    if i == j {
      assert children[i..j] == [];
    } else {
      var last := children[j - 1];
      RunBytes(children, i, j - 1);
      AllBytesFile(children, j - 1);
      assert children[i..j] == children[i..j - 1] + [last];
      BytesSnoc(children[i..j - 1], last);
      Regroup(Bytes(children[i..j - 1]), last.bytes, AllBytes(children, j));
    }
  }

  /** The bytes of the entry at i, or of its run. */
  function StepBytes(children: seq<Entry>, i: nat): seq<int>
    requires i < |children|
  {
    if Kept(children[i]) && children[i].File? then Bytes(children[i..RunEnd(children, i)]) else EntryBytes(children[i])
  }

  lemma AllBytesNext(children: seq<Entry>, i: nat)
    requires i < |children|
    ensures AllBytes(children, i) == StepBytes(children, i) + AllBytes(children, Next(children, i))
  {
    if Kept(children[i]) && children[i].File? {
      RunBytes(children, i, RunEnd(children, i));
    }
  }

  /** What is written or reported as lost, item after item, is the kept files' bytes, entry after entry, through the
      whole tree. */
  lemma {:induction false} BytesConserved(s: State, children: seq<Entry>, dest: Path, i: nat)
    requires i <= |children|
    ensures Told(Unpack(s, children, dest, i).log) == Told(s.log) + AllBytes(children, i)
    decreases children, |children| - i, 1
  {
    if i < |children| {
      var t, j := UnpackEntry(s, children, dest, i), Next(children, i);
      EntryConserves(s, children, dest, i);
      BytesConserved(t, children, dest, j);
      AllBytesNext(children, i);
      Regroup(Told(s.log), StepBytes(children, i), AllBytes(children, j));
    }
  }

  lemma {:induction false} EntryConserves(s: State, children: seq<Entry>, dest: Path, i: nat)
    requires i < |children|
    ensures Told(UnpackEntry(s, children, dest, i).log) == Told(s.log) + StepBytes(children, i)
    decreases children, |children| - i, 0
  {
    var e := children[i];
    if Kept(e) && e.File? {
      TryTells(s, RunItem(children, dest, i), StepBytes(children, i));
    } else if Kept(e) {
      var x := MakeDir(Place(dest, e));
      TryTells(s, x, EntryBytes(e));
      if e.readable && Fits(s.nodes, x) {
        BytesConserved(Try(s, x, EntryBytes(e)), e.children, x.path, 0);
      }
    }
  }

  /** Where the run of equally named files around k starts. */
  function RunStart(children: seq<Entry>, k: nat): (s: nat)
    requires k < |children|
    ensures s <= k
    ensures s > 0 ==> !SameFile(children[s - 1], children[s])
    ensures forall m | s <= m < k :: SameFile(children[m], children[m + 1])
    decreases k
  {
    if k > 0 && SameFile(children[k - 1], children[k]) then RunStart(children, k - 1) else k
  }

  lemma {:induction false} SameRunSameEnd(children: seq<Entry>, s: nat, k: nat)
    requires s <= k < |children| && forall m | s <= m < k :: SameFile(children[m], children[m + 1])
    ensures RunEnd(children, s) == RunEnd(children, k)
    ensures k > s ==> children[s].name == children[k].name
    decreases k - s
  {
    if s < k {
      SameRunSameEnd(children, s + 1, k);
    }
  }

  lemma {:induction false} RunEndsBy(children: seq<Entry>, i: nat, s: nat)
    requires i < s < |children| && !SameFile(children[s - 1], children[s])
    ensures RunEnd(children, i) <= s
    decreases s - i
  {
    if i + 1 < s {
      RunEndsBy(children, i + 1, s);
    }
  }

  // ---- What is tried, whatever the disk ----

  /** All folders and files of the entries from i on. */
  function Items(children: seq<Entry>, dest: Path, i: nat): seq<Item>
    requires i <= |children|
    decreases children, |children| - i, 1
  {
    if i == |children| then [] else EntryItems(children, dest, i) + Items(children, dest, Next(children, i))
  }

  function EntryItems(children: seq<Entry>, dest: Path, i: nat): seq<Item>
    requires i < |children|
    decreases children, |children| - i, 0
  {
    var e := children[i];
    if !Kept(e) then [] else if e.Dir? then DirItems(e, Place(dest, e)) else [RunItem(children, dest, i)]
  }

  function DirItems(e: Entry, path: Path): seq<Item>
    requires e.Dir?
    decreases e, 0, 0
  {
    [MakeDir(path)] + if e.readable then Items(e.children, path, 0) else []
  }

  /** An item is of the entry at i or of a later one. */
  lemma HereOrLater(children: seq<Entry>, dest: Path, i: nat, x: Item)
    requires i <= |children| && x in Items(children, dest, i)
    ensures i < |children|
    ensures x in EntryItems(children, dest, i) || x in Items(children, dest, Next(children, i))
  {
  }

  /** An item of a directory is its folder, or lies in it. */
  lemma FolderOrBelow(e: Entry, path: Path, x: Item)
    requires e.Dir? && x in DirItems(e, path)
    ensures x == MakeDir(path) || (e.readable && x in Items(e.children, path, 0))
  {
  }

  /** What is true before and kept by every item of the tree, done or skipped, is true afterwards. */
  lemma {:induction false} UnpackKeeps(inv: State -> bool, s: State, children: seq<Entry>, dest: Path, i: nat)
    requires i <= |children| && inv(s)
    requires forall t, x, lost | inv(t) && x in Items(children, dest, i) :: inv(Try(t, x, lost))
    ensures inv(Unpack(s, children, dest, i))
    decreases children, |children| - i, 1
  {
    if i < |children| {
      var j := Next(children, i);
      var here, later := EntryItems(children, dest, i), Items(children, dest, j);
      assert forall x | x in here || x in later :: x in Items(children, dest, i);
      EntryKeeps(inv, s, children, dest, i);
      UnpackKeeps(inv, UnpackEntry(s, children, dest, i), children, dest, j);
    }
  }

  lemma {:induction false} EntryKeeps(inv: State -> bool, s: State, children: seq<Entry>, dest: Path, i: nat)
    requires i < |children| && inv(s)
    requires forall t, x, lost | inv(t) && x in EntryItems(children, dest, i) :: inv(Try(t, x, lost))
    ensures inv(UnpackEntry(s, children, dest, i))
    decreases children, |children| - i, 0
  {
    var e := children[i];
    if Kept(e) && e.Dir? {
      var x := MakeDir(Place(dest, e));
      assert x in EntryItems(children, dest, i);
      if e.readable && Fits(s.nodes, x) {
        assert forall y <- Items(e.children, x.path, 0) :: y in EntryItems(children, dest, i);
        UnpackKeeps(inv, Try(s, x, EntryBytes(e)), e.children, x.path, 0);
      }
    } else if Kept(e) {
      assert RunItem(children, dest, i) in EntryItems(children, dest, i);
    }
  }

  /** The items of any entry at which the loop arrives are items of the tree. */
  lemma {:induction false} EntryItemsIn(children: seq<Entry>, dest: Path, i: nat, k: nat, x: Item)
    requires i <= k < |children| && x in EntryItems(children, dest, k)
    requires k > 0 ==> !SameFile(children[k - 1], children[k])
    ensures x in Items(children, dest, i)
    decreases |children| - i
  {
    if i < k {
      RunEndsBy(children, i, k);
      EntryItemsIn(children, dest, Next(children, i), k, x);
    }
  }

  /** The run of files around any kept file, as far as it goes both ways, is one file to write. */
  lemma EachRunIsOneFile(children: seq<Entry>, dest: Path, i: nat, k: nat)
    requires k < |children| && i <= RunStart(children, k) && children[k].File? && Kept(children[k])
    ensures WriteFile(Place(dest, children[k]), Bytes(children[RunStart(children, k)..RunEnd(children, k)]),
                      Whole(children, children[k].name))
            in Items(children, dest, i)
  {
    var s := RunStart(children, k);
    SameRunSameEnd(children, s, k);
    EntryItemsIn(children, dest, i, s, RunItem(children, dest, s));
  }
}
