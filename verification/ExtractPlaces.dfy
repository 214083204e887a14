/** Whether an unpacked ISO 9660 tree stays below its destination. */
module ExtractPlaces {
  import opened Models
  import opened Extract
  import G = Groups

  // ---- One name ----

  /** Walking from here, a folder inside the destination, the segments never leave the destination. */
  predicate StaysIn(at: Path, segs: seq<string>)
    decreases |segs|
  {
    segs == [] || ((segs[0] == ".." ==> at != []) && StaysIn(Move(at, segs[0]), segs[1..]))
  }

  lemma MoveUnder(dest: Path, at: Path, seg: string)
    requires seg == ".." ==> at != []
    ensures Move(dest + at, seg) == dest + Move(at, seg)
  {
  }

  lemma {:induction false} ResolveUnder(dest: Path, at: Path, segs: seq<string>)
    requires StaysIn(at, segs)
    ensures Resolve(dest + at, segs) == dest + Resolve(at, segs)
    decreases |segs|
  {
    if segs != [] {
      MoveUnder(dest, at, segs[0]);
      ResolveUnder(dest, Move(at, segs[0]), segs[1..]);
    }
  }

  lemma {:induction false} ResolveAvoids(at: Path, segs: seq<string>, other: string)
    requires other !in at && other !in segs
    ensures other !in Resolve(at, segs)
    decreases |segs|
  {
    if segs != [] {
      ResolveAvoids(Move(at, segs[0]), segs[1..], other);
    }
  }

  /** Once outside, a walk does not come back to a folder whose name it never says. */
  lemma {:induction false} ResolveEscapes(other: string, at: Path, segs: seq<string>)
    requires !StaysIn(at, segs) && other !in segs
    ensures !([other] <= Resolve([other] + at, segs))
    decreases |segs|
  {
    if segs[0] == ".." && at == [] {
      ResolveAvoids([], segs[1..], other);
    } else {
      MoveUnder([other], at, segs[0]);
      ResolveEscapes(other, Move(at, segs[0]), segs[1..]);
    }
  }

  // ---- A tree ----

  function Segments(e: Entry): seq<string> {
    G.Split(Sanitised(e.name))
  }

  /** No kept entry of the tree, unpacked here inside the destination, leaves the destination. */
  predicate Contained(at: Path, children: seq<Entry>)
    decreases children
  {
    forall i | 0 <= i < |children| && Kept(children[i]) ::
      && StaysIn(at, Segments(children[i]))
      && (children[i].Dir? && children[i].readable ==> Contained(Place(at, children[i]), children[i].children))
  }

  lemma {:induction false} ContainedItems(dest: Path, at: Path, children: seq<Entry>, i: nat, x: Item)
    requires i <= |children| && Contained(at, children) && x in Items(children, dest + at, i)
    ensures dest <= x.path
    decreases children, |children| - i
  {
    HereOrLater(children, dest + at, i, x);
    var e := children[i];
    if x in Items(children, dest + at, Next(children, i)) {
      ContainedItems(dest, at, children, Next(children, i), x);
    } else {
      ResolveUnder(dest, at, Segments(e));
      if e.Dir? {
        FolderOrBelow(e, Place(dest + at, e), x);
      }
      if e.Dir? && x != MakeDir(Place(dest + at, e)) {
        ContainedItems(dest, Place(at, e), e.children, 0, x);
      }
    }
  }

  // ---- Names that a tree does not hold ----

  predicate Shorter(children: seq<Entry>, n: nat) {
    forall i | 0 <= i < |children| ::
      |children[i].name| < n && (children[i].Dir? ==> Shorter(children[i].children, n))
  }

  lemma {:induction false} ShorterStill(children: seq<Entry>, m: nat, n: nat)
    requires Shorter(children, m) && m <= n
    ensures Shorter(children, n)
  {
    forall i | 0 <= i < |children| && children[i].Dir? ensures Shorter(children[i].children, n) {
      ShorterStill(children[i].children, m, n);
    }
  }

  lemma {:induction false} SomeLength(children: seq<Entry>, k: nat) returns (n: nat)
    requires k <= |children|
    ensures Shorter(children[..k], n)
    decreases children, k
  {
    n := 0;
    if k > 0 {
      var front, e := children[..k - 1], children[k - 1];
      var a := SomeLength(children, k - 1);
      var b := 0;
      if e.Dir? {
        b := SomeLength(e.children, |e.children|);
        assert e.children[..|e.children|] == e.children;
      }
      n := a + b + |e.name| + 1;
      ShorterStill(front, a, n);
      if e.Dir? {
        ShorterStill(e.children, b, n);
      }
      forall i | 0 <= i < k
        ensures |children[i].name| < n && (children[i].Dir? ==> Shorter(children[i].children, n))
      {
        if i < k - 1 {
          assert front[i] == children[i];
        }
      }
    }
  }

  lemma {:induction false} SegmentsShort(s: string, seg: string)
    requires seg in G.Split(s)
    ensures |seg| <= |s|
    decreases |s|
  {
    if s != "" {
      if seg in G.Split(s[1..]) {
        SegmentsShort(s[1..], seg);
      } else if s[0] != '/' {
        SegmentsShort(s[1..], G.Split(s[1..])[0]);
      }
    }
  }

  function Filler(n: nat): (s: string)
    ensures |s| == n
  {
    seq(n, _ => 'x')
  }

  lemma NotASegment(children: seq<Entry>, n: nat, i: nat)
    requires i < |children| && Shorter(children, n)
    ensures Filler(n) !in Segments(children[i])
  {
    SanitisedIsClean(children[i].name);
    if Filler(n) in Segments(children[i]) {
      SegmentsShort(Sanitised(children[i].name), Filler(n));
    }
  }

  // ---- Which trees are contained ----

  /** A tree that is not contained has a folder or a file that leaves a destination of this name. */
  lemma {:induction false} SomeItemEscapes(at: Path, children: seq<Entry>, n: nat) returns (x: Item)
    requires !Contained(at, children) && Shorter(children, n)
    ensures x in Items(children, [Filler(n)] + at, 0) && !([Filler(n)] <= x.path)
    decreases children
  {
    var dest := [Filler(n)];
    var k :| 0 <= k < |children| && Kept(children[k])
             && !(&& StaysIn(at, Segments(children[k]))
                  && (children[k].Dir? && children[k].readable ==>
                        Contained(Place(at, children[k]), children[k].children)));
    var e := children[k];
    var path := Place(dest + at, e);
    NotASegment(children, n, k);
    if !StaysIn(at, Segments(e)) {
      ResolveEscapes(Filler(n), at, Segments(e));
      if e.File? {
        EachRunIsOneFile(children, dest + at, 0, k);
        var s := RunStart(children, k);
        x := WriteFile(path, Bytes(children[s..RunEnd(children, k)]), Whole(children, e.name));
      } else {
        x := MakeDir(path);
        EntryItemsIn(children, dest + at, 0, k, x);
      }
    } else {
      ResolveUnder(dest, at, Segments(e));
      x := SomeItemEscapes(Place(at, e), e.children, n);
      EntryItemsIn(children, dest + at, 0, k, x);
    }
  }

  /** For every destination, all folders and files of a tree go below it, exactly when no name of the tree steps out. */
  lemma ContainedIff(children: seq<Entry>)
    ensures (forall dest, x :: x in Items(children, dest, 0) ==> dest <= x.path) <==> Contained([], children)
  {
    if Contained([], children) {
      forall dest: Path, x | x in Items(children, dest, 0) ensures dest <= x.path {
        assert dest + [] == dest;
        ContainedItems(dest, [], children, 0, x);
      }
    } else {
      var n := SomeLength(children, |children|);
      assert children[..|children|] == children;
      var x := SomeItemEscapes([], children, n);
      assert [Filler(n)] + [] == [Filler(n)];
      assert x in Items(children, [Filler(n)], 0);
    }
  }

  // ---- What is outside stays ----

  predicate Touches(x: Item, path: Path) {
    if x.MakeDir? then path <= x.path else path == x.path
  }

  function NodeAt(nodes: Nodes, path: Path): Option<Node> {
    if path in nodes then Some(nodes[path]) else None
  }

  /** Unpacking a contained tree changes nothing on any disk outside of the destination and the way to it. */
  lemma OutsideStays(nodes: Nodes, children: seq<Entry>, dest: Path, path: Path)
    requires Contained([], children) && !(dest <= path) && !(path <= dest)
    ensures NodeAt(Unpack(State(nodes, []), children, dest, 0).nodes, path) == NodeAt(nodes, path)
  {
    forall x <- Items(children, dest, 0) ensures !Touches(x, path) {
      assert dest + [] == dest;
      ContainedItems(dest, [], children, 0, x);
      OneWayUp(path, dest, x.path);
    }
    var inv := (s: State) => NodeAt(s.nodes, path) == NodeAt(nodes, path);
    UnpackKeeps(inv, State(nodes, []), children, dest, 0);
  }
}
