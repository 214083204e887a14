/** What interleaved requests lose of the guarantees that undisturbed handlers give, and exactly when: the pairing of
    tokens with open installations, and the existence of the clusters that rows name. */
module EnrollmentLosses {
  import opened Models
  import opened Enrollment
  import opened EnrollmentRaces

  // ---- Plays, move by move ----

  /** The state after the first k moves. */
  function At(moves: seq<Move>, k: nat): State
    requires k <= |moves|
  {
    Play(START, moves[..k])
  }

  lemma AtNext(moves: seq<Move>, k: nat)
    requires k < |moves|
    ensures At(moves, k + 1) == Apply(At(moves, k), moves[k])
  {
    assert moves[..k + 1][..k] == moves[..k];
  }

  /** If each move keeps what is good exactly unless it is bad, then good lasts exactly as long as no bad move comes. */
  lemma {:induction false} LastsIff(good: State -> bool, bad: (State, Move) -> bool, moves: seq<Move>)
    requires good(START)
    requires forall k | 0 <= k < |moves| && good(At(moves, k)) ::
               good(Apply(At(moves, k), moves[k])) <==> !bad(At(moves, k), moves[k])
    ensures (forall k | 0 <= k <= |moves| :: good(At(moves, k))) <==>
            forall k | 0 <= k < |moves| :: !bad(At(moves, k), moves[k])
  {
    if forall k | 0 <= k <= |moves| :: good(At(moves, k)) {
      forall k | 0 <= k < |moves| ensures !bad(At(moves, k), moves[k]) {
        AtNext(moves, k);
        assert good(At(moves, k)) && good(At(moves, k + 1));
      }
    }
    if forall k | 0 <= k < |moves| :: !bad(At(moves, k), moves[k]) {
      forall k | 0 <= k <= |moves| ensures good(At(moves, k)) {
        GoodSoFar(good, bad, moves, k);
      }
    }
  }

  lemma {:induction false} GoodSoFar(good: State -> bool, bad: (State, Move) -> bool, moves: seq<Move>, k: nat)
    requires good(START) && k <= |moves|
    requires forall j | 0 <= j < |moves| && good(At(moves, j)) ::
               good(Apply(At(moves, j), moves[j])) <==> !bad(At(moves, j), moves[j])
    requires forall j | 0 <= j < |moves| :: !bad(At(moves, j), moves[j])
    ensures good(At(moves, k))
    decreases k
  {
    if k > 0 {
      GoodSoFar(good, bad, moves, k - 1);
      AtNext(moves, k - 1);
    }
  }

  // ---- Which row a step writes ----

  /** No row but that of mac is new or changed, and no cluster is. */
  predicate OnlyRow(w: World, v: World, mac: string) {
    v.clusters == w.clusters && forall m <- v.clients | m != mac :: m in w.clients && v.clients[m] == w.clients[m]
  }

  lemma StateTouches(w: World, mac: string, state: EnrollmentState)
    ensures OnlyRow(w, SetClientEnrollmentState(w, mac, state), mac)
  {
  }

  lemma MarkingTouches(w: World, mac: string, row: Client)
    ensures OnlyRow(w, MarkInstalling(w, mac, row), mac)
  {
    StateTouches(w, mac, Installing);
  }

  lemma CompletingTouches(w: World, mac: string, row: Client)
    ensures OnlyRow(w, MarkInstalled(w, mac, row), mac)
  {
    StateTouches(w, mac, Installed);
  }

  lemma ServingTouches(w: World, mac: string, row: Client, image: nat)
    ensures OnlyRow(w, ServeMenu(w, mac, row, image), mac)
  {
    NextBootTouches(w, mac, "");
  }

  lemma ResettingTouches(w: World, mac: string)
    ensures OnlyRow(w, ResetClientEnrollment(w, mac), mac)
  {
  }

  lemma NextBootTouches(w: World, mac: string, filename: string)
    ensures OnlyRow(w, SetNextBootImage(w, mac, filename), mac)
  {
  }

  lemma CreatingTouches(w: World, c: Client)
    ensures OnlyRow(w, CreateClient(w, c), c.macAddress)
  {
  }

  lemma DeletingTouches(w: World, mac: string)
    ensures OnlyRow(w, DeleteClient(w, mac), mac)
  {
  }

  lemma AssigningTouches(w: World, mac: string, cluster: nat, role: string, disk: string, patch: string, token: string,
                         expires: int, now: int)
    ensures OnlyRow(w, AssignNodeToCluster(w, mac, cluster, role, disk, patch, token, expires, now), mac)
  {
  }

  lemma DeviceTouches(w: World, r: Request)
    ensures Fetching(r) ==> OnlyRow(w, FetchStep(w, r).0, r.f.mac)
    ensures InMenu(r) ==> OnlyRow(w, MenuStep(w, r).0, r.mac)
  {
    if r.FetchReady? {
      MarkingTouches(w, r.f.mac, r.f.row);
    } else if r.MenuRead? {
      CompletingTouches(w, r.mac, r.row);
    } else if r.MenuChosen? {
      ServingTouches(w, r.mac, r.row, r.nextBoot);
    }
  }

  predicate OfNode(r: Request) {
    r.AssignChecked? || r.AssignReady? || r.ReinstallRead? || r.UnassignRead? || r.MarkInstalledRead?
  }

  lemma AdminTouches(w: World, r: Request)
    requires OfNode(r)
    ensures OnlyRow(w, AdminStep(w, r).0, r.mac)
  {
    match r
    case AssignChecked(mac, _, _, _, _, _, _) => CreatingTouches(w, NewClient(mac));
    case AssignReady(mac, cluster, role, disk, patch, token, now) =>
      AssigningTouches(w, mac, cluster, role, disk, patch, token, now + TOKEN_TTL, now);
    case ReinstallRead(mac, row, token, now) =>
      if row.clusterID.Some? {
        AssigningTouches(w, mac, row.clusterID.value, row.clusterRole, row.installDisk, row.configPatch, token,
                         now + TOKEN_TTL, now);
      }
    case UnassignRead(mac) => ResettingTouches(w, mac);
    case MarkInstalledRead(mac) => StateTouches(w, mac, Installed);
  }

  // ---- An open installation and its token ----

  predicate RowPaired(c: Client) {
    c.enrollmentToken != "" <==> Holding(c.enrollmentState)
  }

  /** A node has a token exactly while an installation is open. */
  predicate Paired(w: World) {
    forall mac <- w.clients :: RowPaired(w.clients[mac])
  }

  /** What every open request brought along: a new token that is not empty, or a row that had its token when read. */
  predicate Carried(r: Request) {
    && ((r.AssignChecked? || r.AssignReady? || r.ReinstallRead?) ==> r.token != "")
    && (Fetching(r) ==> r.f.row.enrollmentToken != "")
  }

  lemma CarriedOn(s: State, m: Move)
    requires (forall id <- s.open :: Carried(s.open[id])) && LegalMove(m)
    ensures forall id <- Apply(s, m).open :: Carried(Apply(s, m).open[id])
  {
    match m
    case Arrive(_, a) =>
    case Continue(id) =>
      if id in s.open {
        NextCarried(s.w, s.open[id]);
      }
    case Leave(_) =>
    case Whole(_) =>
  }

  lemma NextCarried(w: World, r: Request)
    requires Carried(r)
    ensures NextStep(w, r).1.Some? ==> Carried(NextStep(w, r).1.value)
  {
    if Fetching(r) {
      assert FetchStep(w, r).1.Some? ==> Carried(FetchStep(w, r).1.value);
    } else if InMenu(r) {
      assert MenuStep(w, r).1.Some? ==> Carried(MenuStep(w, r).1.value);
    }
  }

  lemma {:induction false} CarriedAlways(moves: seq<Move>, k: nat)
    requires k <= |moves| && forall m <- moves :: LegalMove(m)
    ensures forall id <- At(moves, k).open :: Carried(At(moves, k).open[id])
    decreases k
  {
    if k > 0 {
      CarriedAlways(moves, k - 1);
      AtNext(moves, k - 1);
      CarriedOn(At(moves, k - 1), moves[k - 1]);
    }
  }

  /** A config request is about to mark as installing a node that lost its token since the request read it. */
  predicate MarksTokenless(w: World, r: Request) {
    r.FetchReady? && r.f.row.enrollmentState == EnrollmentState.Approved &&
    r.f.mac in w.clients && w.clients[r.f.mac].enrollmentToken == ""
  }

  predicate Unpairs(s: State, m: Move) {
    match m
    case Continue(id) => id in s.open && MarksTokenless(s.w, s.open[id])
    case Whole(a) => a.AddClient? && a.client.macAddress !in s.w.clients && Holding(a.client.enrollmentState)
    case _ => false
  }

  lemma OneRowKeepsPairing(w: World, v: World, mac: string)
    requires Paired(w) && OnlyRow(w, v, mac)
    ensures Paired(v) <==> (mac in v.clients ==> RowPaired(v.clients[mac]))
  {
    forall m <- v.clients | m != mac ensures RowPaired(v.clients[m]) {
      assert RowPaired(w.clients[m]);
    }
  }

  lemma DetachingKeepsPairing(w: World, id: nat)
    requires Paired(w)
    ensures Paired(DetachNodes(w, id))
  {
    var v := DetachNodes(w, id);
    forall m <- v.clients ensures RowPaired(v.clients[m]) {
      assert RowPaired(w.clients[m]);
    }
  }

  lemma FetchUnpairsIff(w: World, r: Request)
    requires Paired(w) && Fetching(r)
    ensures Paired(FetchStep(w, r).0) <==> !MarksTokenless(w, r)
  {
    if r.FetchReady? {
      MarkingTouches(w, r.f.mac, r.f.row);
      OneRowKeepsPairing(w, MarkInstalling(w, r.f.mac, r.f.row), r.f.mac);
    }
  }

  lemma MenuKeepsPairing(w: World, r: Request)
    requires Paired(w) && InMenu(r)
    ensures Paired(MenuStep(w, r).0)
  {
    DeviceTouches(w, r);
    OneRowKeepsPairing(w, MenuStep(w, r).0, r.mac);
  }

  lemma AdminKeepsPairing(w: World, r: Request)
    requires Paired(w) && OfNode(r) && Carried(r)
    ensures Paired(AdminStep(w, r).0)
  {
    AdminTouches(w, r);
    OneRowKeepsPairing(w, AdminStep(w, r).0, r.mac);
  }

  lemma CreatingUnpairsIff(w: World, c: Client)
    requires Paired(w) && c.enrollmentToken == ""
    ensures Paired(CreateClient(w, c)) <==> !(c.macAddress !in w.clients && Holding(c.enrollmentState))
  {
    CreatingTouches(w, c);
    OneRowKeepsPairing(w, CreateClient(w, c), c.macAddress);
  }

  lemma DeletingKeepsPairing(w: World, mac: string)
    requires Paired(w)
    ensures Paired(DeleteClient(w, mac))
  {
    DeletingTouches(w, mac);
    OneRowKeepsPairing(w, DeleteClient(w, mac), mac);
  }

  lemma NextBootKeepsPairing(w: World, mac: string, filename: string)
    requires Paired(w)
    ensures Paired(SetNextBootImage(w, mac, filename))
  {
    NextBootTouches(w, mac, filename);
    OneRowKeepsPairing(w, SetNextBootImage(w, mac, filename), mac);
  }

  lemma WholeUnpairsIff(w: World, a: Action)
    requires Paired(w) && Legal(a) && SingleWrite(a)
    ensures Paired(Step(w, a)) <==>
            !(a.AddClient? && a.client.macAddress !in w.clients && Holding(a.client.enrollmentState))
  {
    match a
    case AddClient(c) => CreatingUnpairsIff(w, c);
    case RemoveClient(mac) => DeletingKeepsPairing(w, mac);
    case SetNextBoot(mac, filename) => NextBootKeepsPairing(w, mac, filename);
    case PutCluster(_, _) =>
    case EditImages(_, _) =>
    case Inventory(mac, _) => CreatingUnpairsIff(w, NewClient(mac));
  }

  lemma MoveUnpairsIff(s: State, m: Move)
    requires Paired(s.w) && LegalMove(m) && forall id <- s.open :: Carried(s.open[id])
    ensures Paired(Apply(s, m).w) <==> !Unpairs(s, m)
  {
    match m
    case Arrive(_, _) =>
    case Continue(id) =>
      if id in s.open {
        var r := s.open[id];
        if Fetching(r) {
          FetchUnpairsIff(s.w, r);
        } else if InMenu(r) {
          MenuKeepsPairing(s.w, r);
        } else if OfNode(r) {
          AdminKeepsPairing(s.w, r);
        } else if r.DeleteClusterRead? {
          DetachingKeepsPairing(s.w, r.id);
        }
      }
    case Leave(_) =>
    case Whole(a) =>
      if SingleWrite(a) {
        WholeUnpairsIff(s.w, a);
      }
  }

  /** Over every interleaving, each node has a token exactly while its installation is open, from start to end, exactly
      when no config request marks a node that lost its token since it was read, and no client is added as open. */
  lemma {:induction false} PairingLastsIff(moves: seq<Move>)
    requires forall m <- moves :: LegalMove(m)
    ensures (forall k | 0 <= k <= |moves| :: Paired(At(moves, k).w)) <==>
            forall k | 0 <= k < |moves| :: !Unpairs(At(moves, k), moves[k])
  {
    forall k | 0 <= k < |moves| && Paired(At(moves, k).w)
      ensures Paired(Apply(At(moves, k), moves[k]).w) <==> !Unpairs(At(moves, k), moves[k])
    {
      CarriedAlways(moves, k);
      assert moves[k] in moves;
      MoveUnpairsIff(At(moves, k), moves[k]);
    }
    LastsIff((s: State) => Paired(s.w), (s: State, m: Move) => Unpairs(s, m), moves);
  }

  // ---- The clusters that rows name ----

  /** Every cluster a row names exists. */
  predicate NamesClusters(w: World) {
    forall mac <- w.clients :: w.clients[mac].clusterID.Some? ==> w.clients[mac].clusterID.value in w.clusters
  }

  /** A request is about to write a cluster that is gone to a row, or to remove one that a row names. */
  predicate StepStrays(w: World, r: Request) {
    match r
    case AssignReady(mac, cluster, _, _, _, _, _) => mac in w.clients && cluster !in w.clusters
    case ReinstallRead(mac, row, _, _) =>
      mac in w.clients && row.clusterID.Some? && row.clusterID.value !in w.clusters
    case DeleteClusterDetached(id) => exists mac <- w.clients :: w.clients[mac].clusterID == Some(id)
    case _ => false
  }

  predicate Strays(s: State, m: Move) {
    match m
    case Continue(id) => id in s.open && StepStrays(s.w, s.open[id])
    case Whole(a) =>
      a.AddClient? && a.client.macAddress !in s.w.clients &&
      a.client.clusterID.Some? && a.client.clusterID.value !in s.w.clusters
    case _ => false
  }

  lemma OneRowKeepsNames(w: World, v: World, mac: string)
    requires NamesClusters(w) && OnlyRow(w, v, mac)
    ensures NamesClusters(v) <==>
            (mac in v.clients && v.clients[mac].clusterID.Some? ==> v.clients[mac].clusterID.value in w.clusters)
  {
  }

  lemma ClustersGoIff(w: World, id: nat)
    requires NamesClusters(w)
    ensures NamesClusters(DetachNodes(w, id))
    ensures NamesClusters(RemoveCluster(w, id)) <==> !exists mac <- w.clients :: w.clients[mac].clusterID == Some(id)
  {
  }

  lemma AdminStraysIff(w: World, r: Request)
    requires NamesClusters(w) && OfNode(r)
    ensures NamesClusters(AdminStep(w, r).0) <==> !StepStrays(w, r)
  {
    AdminTouches(w, r);
    OneRowKeepsNames(w, AdminStep(w, r).0, r.mac);
  }

  /** A write to one row that keeps the row's cluster, or clears it. */
  lemma RowKeepsNames(w: World, v: World, mac: string)
    requires NamesClusters(w) && OnlyRow(w, v, mac)
    requires mac in v.clients && v.clients[mac].clusterID.Some? ==>
             mac in w.clients && v.clients[mac].clusterID == w.clients[mac].clusterID
    ensures NamesClusters(v)
  {
    OneRowKeepsNames(w, v, mac);
  }

  lemma DeviceKeepsNames(w: World, r: Request)
    requires NamesClusters(w)
    ensures Fetching(r) ==> NamesClusters(FetchStep(w, r).0)
    ensures InMenu(r) ==> NamesClusters(MenuStep(w, r).0)
  {
    DeviceTouches(w, r);
    if Fetching(r) {
      RowKeepsNames(w, FetchStep(w, r).0, r.f.mac);
    } else if InMenu(r) {
      RowKeepsNames(w, MenuStep(w, r).0, r.mac);
    }
  }

  lemma CreatingStraysIff(w: World, c: Client)
    requires NamesClusters(w)
    ensures NamesClusters(CreateClient(w, c)) <==>
            !(c.macAddress !in w.clients && c.clusterID.Some? && c.clusterID.value !in w.clusters)
  {
    CreatingTouches(w, c);
    OneRowKeepsNames(w, CreateClient(w, c), c.macAddress);
  }

  lemma DeletingKeepsNames(w: World, mac: string)
    requires NamesClusters(w)
    ensures NamesClusters(DeleteClient(w, mac))
  {
    DeletingTouches(w, mac);
    RowKeepsNames(w, DeleteClient(w, mac), mac);
  }

  lemma NextBootKeepsNames(w: World, mac: string, filename: string)
    requires NamesClusters(w)
    ensures NamesClusters(SetNextBootImage(w, mac, filename))
  {
    NextBootTouches(w, mac, filename);
    RowKeepsNames(w, SetNextBootImage(w, mac, filename), mac);
  }

  lemma WholeStraysIff(w: World, a: Action)
    requires NamesClusters(w) && SingleWrite(a)
    ensures NamesClusters(Step(w, a)) <==>
            !(a.AddClient? && a.client.macAddress !in w.clients &&
              a.client.clusterID.Some? && a.client.clusterID.value !in w.clusters)
  {
    match a
    case AddClient(c) => CreatingStraysIff(w, c);
    case RemoveClient(mac) => DeletingKeepsNames(w, mac);
    case SetNextBoot(mac, filename) => NextBootKeepsNames(w, mac, filename);
    case PutCluster(_, _) =>
    case EditImages(_, _) =>
    case Inventory(mac, _) => CreatingStraysIff(w, NewClient(mac));
  }

  lemma MoveStraysIff(s: State, m: Move)
    requires NamesClusters(s.w)
    ensures NamesClusters(Apply(s, m).w) <==> !Strays(s, m)
  {
    match m
    case Arrive(_, _) =>
    case Continue(id) =>
      if id in s.open {
        var r := s.open[id];
        if Fetching(r) || InMenu(r) {
          DeviceKeepsNames(s.w, r);
        } else if OfNode(r) {
          AdminStraysIff(s.w, r);
        } else {
          ClustersGoIff(s.w, r.id);
        }
      }
    case Leave(_) =>
    case Whole(a) =>
      if SingleWrite(a) {
        WholeStraysIff(s.w, a);
      }
  }

  /** Over every interleaving, every cluster a row names exists, from start to end, exactly when no assignment or
      reinstall writes a cluster that is gone, none is removed while a row names it, and no client is added with one. */
  lemma {:induction false} NamesLastIff(moves: seq<Move>)
    ensures (forall k | 0 <= k <= |moves| :: NamesClusters(At(moves, k).w)) <==>
            forall k | 0 <= k < |moves| :: !Strays(At(moves, k), moves[k])
  {
    forall k | 0 <= k < |moves| && NamesClusters(At(moves, k).w)
      ensures NamesClusters(Apply(At(moves, k), moves[k]).w) <==> !Strays(At(moves, k), moves[k])
    {
      MoveStraysIff(At(moves, k), moves[k]);
    }
    LastsIff((s: State) => NamesClusters(s.w), (s: State, m: Move) => Strays(s, m), moves);
  }
}
