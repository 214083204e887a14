/** Which image groups have something to boot below them, and when the search for it ends. */
module MenuTree {
  import opened Models
  import G = Groups

  datatype Image = Image(id: nat, sortKey: string, group: Option<nat>, enabled: bool, bootMethod: string)

  predicate Child(groups: seq<G.Row>, parent: nat, child: nat) {
    exists r <- groups :: r.id == child && r.enabled && r.parent == Some(parent)
  }

  /** Each group on the path is an enabled child of the one before it. */
  predicate Descends(groups: seq<G.Row>, path: seq<nat>) {
    path != [] && forall k | 0 <= k < |path| - 1 :: Child(groups, path[k], path[k + 1])
  }

  predicate Holds(images: seq<Image>, g: nat) {
    exists i <- images :: i.enabled && i.group == Some(g)
  }

  /** A path of enabled groups leads from this one down to an enabled image. */
  ghost predicate Populated(groups: seq<G.Row>, images: seq<Image>, g: nat) {
    exists path: seq<nat> :: Descends(groups, path) && path[0] == g && Holds(images, path[|path| - 1])
  }

  lemma DescendsOn(groups: seq<G.Row>, path: seq<nat>)
    requires Descends(groups, path) && |path| > 1
    ensures Descends(groups, path[1..]) && Child(groups, path[0], path[1])
  {
    forall k | 0 <= k < |path[1..]| - 1 ensures Child(groups, path[1..][k], path[1..][k + 1]) {
      assert Child(groups, path[k + 1], path[k + 2]);
    }
  }

  lemma PopulatedUnfolds(groups: seq<G.Row>, images: seq<Image>, g: nat)
    ensures Populated(groups, images, g) <==>
            Holds(images, g) || exists c :: Child(groups, g, c) && Populated(groups, images, c)
  {
    if Holds(images, g) {
      assert Descends(groups, [g]) && Holds(images, [g][0]);
    }
    if path: seq<nat> :| Descends(groups, path) && path[0] == g && Holds(images, path[|path| - 1]) && |path| > 1 {
      var rest := path[1..];
      DescendsOn(groups, path);
      assert Descends(groups, rest) && rest[0] == path[1] && Holds(images, rest[|rest| - 1]);
    }
    if c :| Child(groups, g, c) && Populated(groups, images, c) {
      var rest: seq<nat> :| Descends(groups, rest) && rest[0] == c && Holds(images, rest[|rest| - 1]);
      var path := [g] + rest;
      assert Descends(groups, path) && path[0] == g && Holds(images, path[|path| - 1]);
    }
  }

  // ---- The images of one group, or of none ----

  function ImagesIn(images: seq<Image>, group: Option<nat>): (own: seq<Image>)
    ensures forall i :: i in own <==> i in images && i.enabled && i.group == group
  {
    if images == [] then []
    else
      var last := images[|images| - 1];
      var front := ImagesIn(images[..|images| - 1], group);
      assert images == images[..|images| - 1] + [last];
      if last.enabled && last.group == group then front + [last] else front
  }

  predicate Before(a: string, b: string) {
    b != "" && (a == "" || a[0] < b[0] || (a[0] == b[0] && Before(a[1..], b[1..])))
  }

  function InsertSorted(i: Image, rest: seq<Image>): seq<Image> {
    if rest == [] || Before(i.sortKey, rest[0].sortKey) then [i] + rest
    else [rest[0]] + InsertSorted(i, rest[1..])
  }

  /** By lower-case name; equal names keep their order. */
  function SortedByName(images: seq<Image>): seq<Image> {
    if images == [] then []
    else InsertSorted(images[|images| - 1], SortedByName(images[..|images| - 1]))
  }

  lemma HeadCounts(s: seq<Image>)
    requires s != []
    ensures multiset(s) == multiset{s[0]} + multiset(s[1..])
  {
    assert s == [s[0]] + s[1..];
  }

  lemma LastCounts(s: seq<Image>)
    requires s != []
    ensures multiset(s) == multiset(s[..|s| - 1]) + multiset{s[|s| - 1]}
  {
    assert s == s[..|s| - 1] + [s[|s| - 1]];
  }

  lemma {:induction false} InsertKeepsAll(i: Image, rest: seq<Image>)
    ensures multiset(InsertSorted(i, rest)) == multiset(rest) + multiset{i}
    decreases |rest|
  {
    var all := InsertSorted(i, rest);
    HeadCounts(all);
    if rest == [] || Before(i.sortKey, rest[0].sortKey) {
      assert all[1..] == rest;
    } else {
      InsertKeepsAll(i, rest[1..]);
      HeadCounts(rest);
      assert all[1..] == InsertSorted(i, rest[1..]);
    }
  }

  lemma {:induction false} SortingKeepsAll(images: seq<Image>)
    ensures multiset(SortedByName(images)) == multiset(images)
    decreases |images|
  {
    if images != [] {
      var front, last := images[..|images| - 1], images[|images| - 1];
      SortingKeepsAll(front);
      InsertKeepsAll(last, SortedByName(front));
      LastCounts(images);
    }
  }

  predicate NameOrder(images: seq<Image>) {
    forall k | 0 <= k < |images| - 1 :: !Before(images[k + 1].sortKey, images[k].sortKey)
  }

  lemma {:induction false} BeforeIsOneWay(a: string, b: string)
    requires Before(a, b)
    ensures !Before(b, a)
    decreases |a|
  {
    if a != "" && a[0] == b[0] {
      BeforeIsOneWay(a[1..], b[1..]);
    }
  }

  lemma {:induction false} InsertKeepsOrder(i: Image, rest: seq<Image>)
    requires NameOrder(rest)
    ensures NameOrder(InsertSorted(i, rest))
    decreases |rest|
  {
    if rest != [] {
      if Before(i.sortKey, rest[0].sortKey) {
        BeforeIsOneWay(i.sortKey, rest[0].sortKey);
      } else {
        InsertKeepsOrder(i, rest[1..]);
      }
    }
  }

  lemma {:induction false} SortingOrders(images: seq<Image>)
    ensures NameOrder(SortedByName(images))
    decreases |images|
  {
    if images != [] {
      var n := |images| - 1;
      SortingOrders(images[..n]);
      InsertKeepsOrder(images[n], SortedByName(images[..n]));
    }
  }

  function Listed(images: seq<Image>, group: Option<nat>): (own: seq<Image>)
    ensures forall i :: i in own <==> i in images && i.enabled && i.group == group
  {
    SortingKeepsAll(ImagesIn(images, group));
    assert forall i :: i in SortedByName(ImagesIn(images, group)) <==> i in multiset(ImagesIn(images, group));
    SortedByName(ImagesIn(images, group))
  }

  method GetImages(images: seq<Image>, group: Option<nat>) returns (own: seq<Image>)
    ensures own == Listed(images, group)
  {
    own := [];
    for k := 0 to |images|
      invariant own == ImagesIn(images[..k], group)
    {
      assert images[..k + 1][..k] == images[..k];
      if images[k].group == group && images[k].enabled {
        own := own + [images[k]];
      }
    }
    assert images[..|images|] == images;
    own := SortedByName(own);
  }

  // ---- The recursive search ----

  function EnabledChildren(groups: seq<G.Row>, parent: nat): (ids: seq<nat>)
    ensures forall c :: c in ids <==> Child(groups, parent, c)
  {
    if groups == [] then []
    else
      var n := |groups| - 1;
      var r, front := groups[n], EnabledChildren(groups[..n], parent);
      assert groups == groups[..n] + [r];
      assert forall c :: Child(groups, parent, c) <==>
                         (r.id == c && r.enabled && r.parent == Some(parent)) || Child(groups[..n], parent, c);
      if r.parent == Some(parent) && r.enabled then front + [r.id] else front
  }

  /** The search as far as a call stack of this depth takes it; None when it would go deeper. */
  ghost function Search(groups: seq<G.Row>, images: seq<Image>, g: nat, depth: nat): Option<bool>
    decreases depth, 1, 0
  {
    if depth == 0 then None
    else if Holds(images, g) then Some(true)
    else SearchAll(groups, images, EnabledChildren(groups, g), 0, depth - 1)
  }

  /** The same for these groups one after another, from the one at i on, up to the first that has something. */
  ghost function SearchAll(groups: seq<G.Row>, images: seq<Image>, ids: seq<nat>, i: nat, depth: nat): Option<bool>
    requires i <= |ids|
    decreases depth, 2, |ids| - i
  {
    if i == |ids| then Some(false)
    else match Search(groups, images, ids[i], depth)
      case Some(false) => SearchAll(groups, images, ids, i + 1, depth)
      case answer => answer
  }

  /** Whenever the search ends, it has the right answer. */
  lemma {:induction false} SearchIsRight(groups: seq<G.Row>, images: seq<Image>, g: nat, depth: nat)
    requires Search(groups, images, g, depth).Some?
    ensures Search(groups, images, g, depth).value <==> Populated(groups, images, g)
    decreases depth, 1, 0
  {
    PopulatedUnfolds(groups, images, g);
    if !Holds(images, g) {
      SearchAllIsRight(groups, images, EnabledChildren(groups, g), 0, depth - 1);
    }
  }

  lemma {:induction false} SearchAllIsRight(groups: seq<G.Row>, images: seq<Image>, ids: seq<nat>, i: nat, depth: nat)
    requires i <= |ids| && SearchAll(groups, images, ids, i, depth).Some?
    ensures SearchAll(groups, images, ids, i, depth).value <==>
            exists k | i <= k < |ids| :: Populated(groups, images, ids[k])
    decreases depth, 2, |ids| - i
  {
    if i < |ids| {
      SearchIsRight(groups, images, ids[i], depth);
      if Search(groups, images, ids[i], depth) == Some(false) {
        SearchAllIsRight(groups, images, ids, i + 1, depth);
      }
    }
  }

  // ---- When it ends ----

  /** Some path of enabled groups from here comes back to a group it already passed. */
  ghost predicate LeadsToCycle(groups: seq<G.Row>, g: nat) {
    exists path: seq<nat>, k ::
      Descends(groups, path) && path[0] == g && 0 <= k < |path| - 1 && path[k] == path[|path| - 1]
  }

  function Ids(groups: seq<G.Row>): set<nat> {
    set r <- groups :: r.id
  }

  lemma {:induction false} PathIsShort(groups: seq<G.Row>, path: seq<nat>)
    requires Descends(groups, path) && !LeadsToCycle(groups, path[0])
    ensures |path| <= |Ids(groups)| + 1
  {
    var tail := path[1..];
    forall i, j | 0 <= i < j < |tail| ensures tail[i] != tail[j] {
      var upto := path[..j + 2];
      assert Descends(groups, upto) && upto[0] == path[0] && upto[j + 1] == tail[j] && upto[i + 1] == tail[i];
    }
    forall i | 0 <= i < |tail| ensures tail[i] in Ids(groups) {
      assert Child(groups, path[i], path[i + 1]);
    }
    DistinctFit(tail, Ids(groups));
  }

  lemma {:induction false} DistinctFit(s: seq<nat>, ids: set<nat>)
    requires forall i, j | 0 <= i < j < |s| :: s[i] != s[j]
    requires forall i | 0 <= i < |s| :: s[i] in ids
    ensures |s| <= |ids|
    decreases |s|
  {
    if s != [] {
      DistinctFit(s[1..], ids - {s[0]});
    }
  }

  lemma {:induction false} SearchEnds(groups: seq<G.Row>, images: seq<Image>, path: seq<nat>, depth: nat)
    requires Descends(groups, path) && !LeadsToCycle(groups, path[0])
    requires |Ids(groups)| + 1 < |path| + depth
    ensures Search(groups, images, path[|path| - 1], depth).Some?
    decreases depth, 1, 0
  {
    PathIsShort(groups, path);
    if !Holds(images, path[|path| - 1]) {
      SearchAllEnds(groups, images, path, EnabledChildren(groups, path[|path| - 1]), 0, depth - 1);
    }
  }

  lemma {:induction false} SearchAllEnds(groups: seq<G.Row>, images: seq<Image>, path: seq<nat>, ids: seq<nat>, i: nat,
                                         depth: nat)
    requires Descends(groups, path) && !LeadsToCycle(groups, path[0]) && i <= |ids|
    requires |Ids(groups)| + 1 < |path| + 1 + depth && forall c <- ids :: Child(groups, path[|path| - 1], c)
    ensures SearchAll(groups, images, ids, i, depth).Some?
    decreases depth, 2, |ids| - i
  {
    if i < |ids| {
      assert ids[i] in ids;
      SearchEnds(groups, images, path + [ids[i]], depth);
      SearchAllEnds(groups, images, path, ids, i + 1, depth);
    }
  }

  /** With no images, a path longer than the stack is a search deeper than the stack. */
  lemma {:induction false} LongPathOverflows(groups: seq<G.Row>, path: seq<nat>, depth: nat)
    requires Descends(groups, path) && |path| > depth
    ensures Search(groups, [], path[0], depth).None?
    decreases depth
  {
    if depth > 0 {
      var rest := path[1..];
      if rest != [] {
        DescendsOn(groups, path);
        LongPathOverflows(groups, rest, depth - 1);
        var ids := EnabledChildren(groups, path[0]);
        var k :| 0 <= k < |ids| && ids[k] == path[1];
        OneOverflowIsEnough(groups, ids, 0, k, depth - 1);
      }
    }
  }

  lemma {:induction false} OneOverflowIsEnough(groups: seq<G.Row>, ids: seq<nat>, i: nat, k: nat, depth: nat)
    requires i <= k < |ids| && Search(groups, [], ids[k], depth).None?
    ensures SearchAll(groups, [], ids, i, depth).None?
    decreases k - i
  {
    NothingToFind(groups, ids[i], depth);
    if i < k && Search(groups, [], ids[i], depth).Some? {
      OneOverflowIsEnough(groups, ids, i + 1, k, depth);
    }
  }

  lemma NothingToFind(groups: seq<G.Row>, g: nat, depth: nat)
    ensures Search(groups, [], g, depth) != Some(true)
  {
    if Search(groups, [], g, depth).Some? {
      SearchIsRight(groups, [], g, depth);
    }
  }

  /** Going round the cycle makes the path as long as we like. */
  lemma {:induction false} CycleMakesLongPaths(groups: seq<G.Row>, path: seq<nat>, k: nat, length: nat)
    returns (long: seq<nat>)
    requires Descends(groups, path) && k < |path| - 1 && path[k] == path[|path| - 1]
    ensures Descends(groups, long) && long[0] == path[0] && |long| > length
    decreases length - |path|
  {
    if |path| > length {
      long := path;
    } else {
      var n := |path|;
      var longer := path + path[k + 1..];
      forall i | 0 <= i < |longer| - 1 ensures Child(groups, longer[i], longer[i + 1]) {
        if i >= n - 1 {
          assert longer[i] == path[i - n + k + 1] && longer[i + 1] == path[i - n + k + 2];
        }
      }
      long := CycleMakesLongPaths(groups, longer, n - 1, length);
    }
  }

  ghost predicate Ends(groups: seq<G.Row>, images: seq<Image>, g: nat) {
    exists depth :: Search(groups, images, g, depth).Some?
  }

  /** The search from a group ends, whatever the images, exactly when no cycle of enabled groups lies below it. */
  lemma SearchEndsIff(groups: seq<G.Row>, g: nat)
    ensures (forall images: seq<Image> :: Ends(groups, images, g)) <==> !LeadsToCycle(groups, g)
  {
    if !LeadsToCycle(groups, g) {
      forall images: seq<Image> ensures Ends(groups, images, g) {
        assert Descends(groups, [g]);
        SearchEnds(groups, images, [g], |Ids(groups)| + 1);
      }
    }
    if path: seq<nat>, k: int :|
      Descends(groups, path) && path[0] == g && 0 <= k < |path| - 1 && path[k] == path[|path| - 1] {
      forall depth: nat ensures Search(groups, [], g, depth).None? {
        var long := CycleMakesLongPaths(groups, path, k, depth);
        LongPathOverflows(groups, long, depth);
      }
      assert !Ends(groups, [], g);
    }
  }

  /** The rows of a sound table, in whatever order they are listed, have no cycle. */
  lemma SoundHasNoCycle(t: G.Table, groups: seq<G.Row>, g: nat)
    requires G.Sound(t) && forall r <- groups :: r in t.rows
    ensures !LeadsToCycle(groups, g)
  {
    if path: seq<nat>, k: int :|
      Descends(groups, path) && path[0] == g && 0 <= k < |path| - 1 && path[k] == path[|path| - 1] {
      DescentRises(t, groups, path, k, |path| - 1);
    }
  }

  lemma {:induction false} DescentRises(t: G.Table, groups: seq<G.Row>, path: seq<nat>, i: nat, j: nat)
    requires G.Sound(t) && (forall r <- groups :: r in t.rows) && Descends(groups, path) && i < j < |path|
    ensures path[i] < path[j]
    decreases j
  {
    assert Child(groups, path[j - 1], path[j]);
    if i < j - 1 {
      DescentRises(t, groups, path, i, j - 1);
    }
  }

  /** A group that is its own parent, with nothing to boot: the search for its images never ends. */
  lemma SelfParentNeverEnds()
    ensures !Ends([G.Row(1, "g", Some(1), true)], [], 1)
  {
    var groups := [G.Row(1, "g", Some(1), true)];
    assert groups[0] in groups && Child(groups, 1, 1);
    var path: seq<nat> := [1, 1];
    assert Descends(groups, path);
    forall depth: nat ensures Search(groups, [], 1, depth).None? {
      var long := CycleMakesLongPaths(groups, path, 0, depth);
      LongPathOverflows(groups, long, depth);
    }
  }

  // ---- The search as it runs ----

  function IdsOf(groups: seq<G.Row>): (ids: seq<nat>)
    ensures |ids| == |groups| && forall k | 0 <= k < |groups| :: ids[k] == groups[k].id
  {
    seq(|groups|, k requires 0 <= k < |groups| => groups[k].id)
  }

  method GetChildGroups(groups: seq<G.Row>, parent: nat) returns (children: seq<G.Row>)
    ensures IdsOf(children) == EnabledChildren(groups, parent)
    ensures forall r :: r in children <==> r in groups && r.enabled && r.parent == Some(parent)
  {
    children := [];
    for i := 0 to |groups|
      invariant IdsOf(children) == EnabledChildren(groups[..i], parent)
      invariant forall r :: r in children <==> r in groups[..i] && r.enabled && r.parent == Some(parent)
    {
      assert groups[..i + 1][..i] == groups[..i];
      if groups[i].parent == Some(parent) && groups[i].enabled {
        assert IdsOf(children + [groups[i]]) == IdsOf(children) + [groups[i].id];
        children := children + [groups[i]];
      }
    }
    assert groups[..|groups|] == groups;
  }

  ghost predicate NoneOf(groups: seq<G.Row>, images: seq<Image>, ids: seq<nat>, i: nat)
    requires i <= |ids|
  {
    forall j | 0 <= j < i :: !Populated(groups, images, ids[j])
  }

  lemma NoneOfNext(groups: seq<G.Row>, images: seq<Image>, ids: seq<nat>, i: nat)
    requires i < |ids| && NoneOf(groups, images, ids, i) && !Populated(groups, images, ids[i])
    ensures NoneOf(groups, images, ids, i + 1)
  {
  }

  lemma NoneBelow(groups: seq<G.Row>, images: seq<Image>, g: nat, ids: seq<nat>)
    requires ids == EnabledChildren(groups, g) && !Holds(images, g) && NoneOf(groups, images, ids, |ids|)
    ensures !Populated(groups, images, g)
  {
    PopulatedUnfolds(groups, images, g);
    assert forall c <- ids :: !Populated(groups, images, c);
  }

  lemma SomeBelow(groups: seq<G.Row>, images: seq<Image>, g: nat, c: nat)
    requires c in EnabledChildren(groups, g) && Populated(groups, images, c)
    ensures Populated(groups, images, g)
  {
    PopulatedUnfolds(groups, images, g);
  }

  lemma OwnCounts(groups: seq<G.Row>, images: seq<Image>, g: nat, own: seq<Image>)
    requires own == Listed(images, Some(g))
    ensures own != [] <==> Holds(images, g)
    ensures own != [] ==> Populated(groups, images, g)
  {
    PopulatedUnfolds(groups, images, g);
    if own != [] {
      assert own[0] in own;
    } else {
      assert forall i :: i !in own;
    }
  }

  /** For every group from which the search ends, on a stack as deep as it needs. */
  method GroupHasImages(groups: seq<G.Row>, images: seq<Image>, g: nat, ghost depth: nat) returns (found: bool)
    requires Search(groups, images, g, depth).Some?
    ensures found <==> Populated(groups, images, g)
    decreases depth
  {
    var own := GetImages(images, Some(g));
    OwnCounts(groups, images, g, own);
    if |own| > 0 {
      return true;
    }
    var children := GetChildGroups(groups, g);
    ghost var ids := EnabledChildren(groups, g);
    for i := 0 to |children|
      invariant SearchAll(groups, images, ids, i, depth - 1).Some?
      invariant NoneOf(groups, images, ids, i)
    {
      SearchIsRight(groups, images, ids[i], depth - 1);
      var below := GroupHasImages(groups, images, children[i].id, depth - 1);
      if below {
        SomeBelow(groups, images, g, ids[i]);
        return true;
      }
      NoneOfNext(groups, images, ids, i);
    }
    NoneBelow(groups, images, g, ids);
    found := false;
  }
}
