/** The same handlers with no transaction around them: each is cut into its reads and its writes, and the cuts of
    any number of requests interleave freely. An announcement is taken together with the write it announces. */
module EnrollmentRaces {
  import opened Models
  import opened Enrollment

  /** A config request whose token was accepted: what it presented, the row it read, and how long the log was then. */
  datatype Fetch = Fetch(mac: string, token: string, uuid: string, at: int, row: Client, readAt: nat)

  /** Where a request stands: what it has read and still has to read or write. */
  datatype Request =
    | FetchAccepted(f: Fetch, env: Env)                      // still to check: the hardware id
    | FetchKnown(f: Fetch, env: Env)                         // the cluster
    | FetchPlaced(f: Fetch, env: Env, image: nat)            // the node image, then rendering
    | FetchReady(f: Fetch)                                   // to write: the state
    | FetchMarked(f: Fetch)                                  // to answer
    | MenuRead(mac: string, row: Client, now: int, env: Env) // to read the cluster, or to write the state
    | MenuPlaced(mac: string, row: Client, env: Env, image: nat)
    | MenuMarked(mac: string, row: Client)                   // to read the next-boot image
    | MenuChosen(mac: string, row: Client, nextBoot: nat)    // to clear the setting
    | AssignChecked(mac: string, cluster: nat, role: string, disk: string, patch: string, token: string, now: int)
    | AssignReady(mac: string, cluster: nat, role: string, disk: string, patch: string, token: string, now: int)
    | ReinstallRead(mac: string, row: Client, token: string, now: int)
    | UnassignRead(mac: string)
    | MarkInstalledRead(mac: string)
    | DeleteClusterRead(id: nat)
    | DeleteClusterDetached(id: nat)

  datatype State = State(w: World, open: map<nat, Request>)

  datatype Move =
    | Arrive(id: nat, a: Action)               // a request comes in and does its first read
    | Continue(id: nat)                        // it does its next read or write
    | Leave(id: nat)                           // it ends early: the database failed
    | Whole(a: Action)                         // a request with a single write

  /** The first read of a request; requests that fail it, and single-write requests, open nothing. */
  function FirstRead(w: World, a: Action): Option<Request> {
    match a
    case FetchConfig(mac, token, uuid, now, env) =>
      if mac in w.clients && ValidateToken(Some(w.clients[mac]), token, now).None?
      then Some(FetchAccepted(Fetch(mac, token, uuid, now, w.clients[mac], |w.log|), env)) else None
    case BootMenu(mac, now, env) => if mac in w.clients then Some(MenuRead(mac, w.clients[mac], now, env)) else None
    case Assign(mac, cluster, role, disk, patch, token, now) =>
      if mac != "" && (role == CONTROL_PLANE || role == WORKER) && cluster in w.clusters
      then Some(AssignChecked(mac, cluster, role, disk, patch, token, now)) else None
    case Reinstall(mac, token, now) =>
      if mac in w.clients && w.clients[mac].clusterID.Some?
      then Some(ReinstallRead(mac, w.clients[mac], token, now)) else None
    case Unassign(mac) => if mac in w.clients then Some(UnassignRead(mac)) else None
    case MarkNodeInstalled(mac) => if mac in w.clients then Some(MarkInstalledRead(mac)) else None
    case RemoveClusterAction(id) => if id in w.clusters then Some(DeleteClusterRead(id)) else None
    case _ => None
  }

  /** The node image a row's cluster names, as the cluster row stands now. */
  function ImageNamed(w: World, c: Client): Option<nat> {
    if c.clusterID.Some? && c.clusterID.value in w.clusters then w.clusters[c.clusterID.value].nodeImageID else None
  }

  predicate Fetching(r: Request) {
    r.FetchAccepted? || r.FetchKnown? || r.FetchPlaced? || r.FetchReady? || r.FetchMarked?
  }

  /** The next step of a config request: three reads, any of which may deny it, then the write and the answer. */
  function FetchStep(w: World, r: Request): (World, Option<Request>)
    requires Fetching(r)
  {
    match r
    case FetchAccepted(f, env) =>
      (w, if f.mac in w.inventory && !ValidateUUID(w.inventory[f.mac], f.uuid, env.fold) then None
          else Some(FetchKnown(f, env)))
    case FetchKnown(f, env) =>
      var image := ImageNamed(w, f.row);
      (w, if image.None? then None else Some(FetchPlaced(f, env, image.value)))
    case FetchPlaced(f, env, image) =>
      (w, if image in w.nodeImages && env.provider && env.renders then Some(FetchReady(f)) else None)
    case FetchReady(f) => (MarkInstalling(w, f.mac, f.row), Some(FetchMarked(f)))
    case FetchMarked(f) => (Append(w, ConfigServed(f.mac, f.token, f.uuid, f.at, f.readAt)), None)
  }

  predicate InMenu(r: Request) {
    r.MenuRead? || r.MenuPlaced? || r.MenuMarked? || r.MenuChosen?
  }

  /** The next step of a boot request: an approved node gets the script if the reads allow it, any other the menu. */
  function MenuStep(w: World, r: Request): (World, Option<Request>)
    requires InMenu(r)
  {
    match r
    case MenuRead(mac, row, now, env) =>
      var image := ImageNamed(w, row);
      if row.enrollmentState != EnrollmentState.Approved then (MarkInstalled(w, mac, row), Some(MenuMarked(mac, row)))
      else if ValidateToken(Some(row), row.enrollmentToken, now).Some? || image.None?
      then (w, Some(MenuMarked(mac, row)))
      else (w, Some(MenuPlaced(mac, row, env, image.value)))
    case MenuPlaced(mac, row, env, image) =>
      if image in w.nodeImages && w.nodeImages[image].downloaded && env.provider && env.renders
      then (Append(w, ScriptServed(mac)), None) else (w, Some(MenuMarked(mac, row)))
    case MenuMarked(mac, row) => (w, Some(MenuChosen(mac, row, NextBootID(w, row))))
    case MenuChosen(mac, row, nextBoot) => (ServeMenu(w, mac, row, nextBoot), None)
  }

  /** The next write of an administrator's request. */
  function AdminStep(w: World, r: Request): (World, Option<Request>)
    requires !Fetching(r) && !InMenu(r)
  {
    match r
    case AssignChecked(mac, cluster, role, disk, patch, token, now) =>
      (CreateClient(w, NewClient(mac)), Some(AssignReady(mac, cluster, role, disk, patch, token, now)))
    case AssignReady(mac, cluster, role, disk, patch, token, now) =>
      if mac !in w.clients then (w, None)
      else
        (Append(AssignNodeToCluster(w, mac, cluster, role, disk, patch, token, now + TOKEN_TTL, now),
                Event.Approved(mac)), None)
    case ReinstallRead(mac, row, token, now) =>
      if row.clusterID.None? then (w, None)
      else
        (AssignNodeToCluster(w, mac, row.clusterID.value, row.clusterRole, row.installDisk, row.configPatch, token,
                             now + TOKEN_TTL, now), None)
    case UnassignRead(mac) => (ResetClientEnrollment(w, mac), None)
    case MarkInstalledRead(mac) => (SetClientEnrollmentState(w, mac, Installed), None)
    case DeleteClusterRead(id) => (DetachNodes(w, id), Some(DeleteClusterDetached(id)))
    case DeleteClusterDetached(id) => (RemoveCluster(w, id), None)
  }

  /** The next read or write of a request, and what it becomes (None: done). */
  function NextStep(w: World, r: Request): (World, Option<Request>) {
    if Fetching(r) then FetchStep(w, r) else if InMenu(r) then MenuStep(w, r) else AdminStep(w, r)
  }

  predicate SingleWrite(a: Action) {
    a.AddClient? || a.RemoveClient? || a.SetNextBoot? || a.PutCluster? || a.EditImages? || a.Inventory?
  }

  function Apply(s: State, m: Move): State {
    match m
    case Arrive(id, a) =>
      var r := FirstRead(s.w, a);
      if id in s.open || r.None? then s else s.(open := s.open[id := r.value])
    case Continue(id) =>
      if id !in s.open then s
      else
        var (w, r) := NextStep(s.w, s.open[id]);
        State(w, if r.Some? then s.open[id := r.value] else s.open - {id})
    case Leave(id) => s.(open := s.open - {id})
    case Whole(a) => if SingleWrite(a) then s.(w := Step(s.w, a)) else s
  }

  function Play(s: State, moves: seq<Move>): State
    decreases |moves|
  {
    if moves == [] then s else Apply(Play(s, moves[..|moves| - 1]), moves[|moves| - 1])
  }

  const START := State(EMPTY, map[])

  predicate LegalMove(m: Move) {
    (m.Arrive? || m.Whole?) ==> Legal(m.a)
  }

  // ---- What still holds ----

  /** A token exists only while an installation is open, with a deadline and a cluster. */
  predicate TokensOpen(w: World) {
    forall mac <- w.clients | w.clients[mac].enrollmentToken != "" ::
      var c := w.clients[mac];
      Holding(c.enrollmentState) && c.clusterID.Some? && c.tokenExpiresAt.Some?
  }

  predicate FetchOk(log: seq<Event>, f: Fetch) {
    f.token != "" && f.readAt <= |log| && Backs(LastWrite(log[..f.readAt], f.mac), f.mac, f.token, f.at)
  }

  /** A request that may serve a config was backed when it read the row. */
  predicate RequestOk(log: seq<Event>, r: Request) {
    Fetching(r) ==> FetchOk(log, r.f)
  }

  ghost predicate Safe(s: State) {
    && TokensOpen(s.w)
    && LogOk(s.w)
    && forall id <- s.open :: RequestOk(s.w.log, s.open[id])
  }

  lemma RequestsKept(log: seq<Event>, longer: seq<Event>, r: Request)
    requires RequestOk(log, r) && log <= longer
    ensures RequestOk(longer, r)
  {
    if Fetching(r) {
      assert longer[..r.f.readAt] == log[..r.f.readAt];
    }
  }

  /** A write that stores no token, moves no row that has one to another cluster or deadline, and keeps it open. */
  lemma RowsKeepTokensOpen(w: World, v: World)
    requires TokensOpen(w)
    requires forall mac <- v.clients | v.clients[mac].enrollmentToken != "" ::
               mac in w.clients && w.clients[mac].enrollmentToken != "" && Holding(v.clients[mac].enrollmentState) &&
               v.clients[mac].clusterID == w.clients[mac].clusterID &&
                 v.clients[mac].tokenExpiresAt == w.clients[mac].tokenExpiresAt
    ensures TokensOpen(v)
  {
  }

  lemma StateKeepsTokensOpen(w: World, mac: string, state: EnrollmentState)
    requires TokensOpen(w) && (state == Installing || state == Installed)
    ensures TokensOpen(SetClientEnrollmentState(w, mac, state))
  {
    RowsKeepTokensOpen(w, SetClientEnrollmentState(w, mac, state));
  }

  lemma MarksKeepTokensOpen(w: World, mac: string, row: Client)
    requires TokensOpen(w)
    ensures TokensOpen(MarkInstalling(w, mac, row)) && TokensOpen(MarkInstalled(w, mac, row))
  {
    StateKeepsTokensOpen(w, mac, Installing);
    StateKeepsTokensOpen(w, mac, Installed);
  }

  lemma NextBootKeepsTokensOpen(w: World, mac: string, filename: string)
    requires TokensOpen(w)
    ensures TokensOpen(SetNextBootImage(w, mac, filename))
  {
    var v := SetNextBootImage(w, mac, filename);
    if mac in w.clients {
      assert v.clients[mac] == w.clients[mac].(nextBootImage := filename);
      assert forall m <- w.clients | m != mac :: v.clients[m] == w.clients[m];
      RowsKeepTokensOpen(w, v);
    }
  }

  lemma CreatingKeepsTokensOpen(w: World, c: Client)
    requires TokensOpen(w) && c.enrollmentToken == ""
    ensures TokensOpen(CreateClient(w, c))
  {
    RowsKeepTokensOpen(w, CreateClient(w, c));
  }

  lemma FetchKeepsTokensOpen(w: World, r: Request)
    requires TokensOpen(w) && Fetching(r)
    ensures TokensOpen(FetchStep(w, r).0)
  {
    if r.FetchReady? {
      MarksKeepTokensOpen(w, r.f.mac, r.f.row);
    }
  }

  lemma MenuKeepsTokensOpen(w: World, r: Request)
    requires TokensOpen(w) && InMenu(r)
    ensures TokensOpen(MenuStep(w, r).0)
  {
    MarksKeepTokensOpen(w, r.mac, r.row);
    NextBootKeepsTokensOpen(w, r.mac, "");
  }

  lemma ResettingKeepsTokensOpen(w: World, mac: string)
    requires TokensOpen(w)
    ensures TokensOpen(ResetClientEnrollment(w, mac))
  {
    RowsKeepTokensOpen(w, ResetClientEnrollment(w, mac));
  }

  lemma DetachingKeepsTokensOpen(w: World, id: nat)
    requires TokensOpen(w)
    ensures TokensOpen(DetachNodes(w, id))
  {
    RowsKeepTokensOpen(w, DetachNodes(w, id));
  }

  lemma AdminKeepsTokensOpen(w: World, r: Request)
    requires TokensOpen(w) && !Fetching(r) && !InMenu(r)
    ensures TokensOpen(AdminStep(w, r).0)
  {
    match r
    case AssignChecked(mac, _, _, _, _, _, _) => CreatingKeepsTokensOpen(w, NewClient(mac));
    case AssignReady(mac, cluster, role, disk, patch, token, now) =>
      AssigningKeepsTokensOpen(w, mac, cluster, role, disk, patch, token, now + TOKEN_TTL, now);
    case ReinstallRead(mac, row, token, now) =>
      if row.clusterID.Some? {
        AssigningKeepsTokensOpen(w, mac, row.clusterID.value, row.clusterRole, row.installDisk, row.configPatch, token,
                                 now + TOKEN_TTL, now);
      }
    case UnassignRead(mac) => ResettingKeepsTokensOpen(w, mac);
    case MarkInstalledRead(mac) => StateKeepsTokensOpen(w, mac, Installed);
    case DeleteClusterRead(id) => DetachingKeepsTokensOpen(w, id);
    case DeleteClusterDetached(_) =>
  }

  lemma StepKeepsTokensOpen(w: World, r: Request)
    requires TokensOpen(w)
    ensures TokensOpen(NextStep(w, r).0)
  {
    if Fetching(r) {
      FetchKeepsTokensOpen(w, r);
    } else if InMenu(r) {
      MenuKeepsTokensOpen(w, r);
    } else {
      AdminKeepsTokensOpen(w, r);
    }
  }

  lemma AssigningKeepsTokensOpen(w: World, mac: string, cluster: nat, role: string, disk: string, patch: string,
                                 token: string, expires: int, now: int)
    requires TokensOpen(w)
    ensures TokensOpen(AssignNodeToCluster(w, mac, cluster, role, disk, patch, token, expires, now))
  {
  }

  lemma WholeKeepsSafe(w: World, a: Action)
    requires TokensOpen(w) && LogOk(w) && Legal(a) && SingleWrite(a)
    ensures TokensOpen(Step(w, a)) && LogOk(Step(w, a)) && w.log <= Step(w, a).log
  {
    StepKeepsLog(w, a);
    match a
    case AddClient(c) => CreatingKeepsTokensOpen(w, c);
    case RemoveClient(mac) => RowsKeepTokensOpen(w, DeleteClient(w, mac));
    case SetNextBoot(mac, filename) => NextBootKeepsTokensOpen(w, mac, filename);
    case PutCluster(_, _) =>
    case EditImages(_, _) =>
    case Inventory(mac, _) => CreatingKeepsTokensOpen(w, NewClient(mac));
  }

  lemma FetchExtendsLog(w: World, r: Request)
    requires Fetching(r)
    ensures w.log <= FetchStep(w, r).0.log
  {
  }

  lemma MenuExtendsLog(w: World, r: Request)
    requires InMenu(r)
    ensures w.log <= MenuStep(w, r).0.log
  {
  }

  lemma StepExtendsLog(w: World, r: Request)
    ensures w.log <= NextStep(w, r).0.log
  {
    if Fetching(r) {
      FetchExtendsLog(w, r);
    } else if InMenu(r) {
      MenuExtendsLog(w, r);
    } else {
      assert w.log <= AdminStep(w, r).0.log;
    }
  }

  lemma FetchStepKeepsLog(w: World, r: Request)
    requires LogOk(w) && RequestOk(w.log, r) && Fetching(r)
    ensures LogOk(FetchStep(w, r).0)
  {
    var e := ConfigServed(r.f.mac, r.f.token, r.f.uuid, r.f.at, r.f.readAt);
    if r.FetchReady? {
      MarkingKeepsLog(w, r.f.mac, r.f.row);
    } else if r.FetchMarked? {
      LogKeepsBacked(w.log, e);
      ServingKeepsTokens(w, e);
    }
  }

  lemma MenuStageKeepsLog(w: World, r: Request)
    requires LogOk(w) && InMenu(r)
    ensures LogOk(MenuStep(w, r).0)
  {
    match r
    case MenuRead(mac, row, _, _) => MarkingKeepsLog(w, mac, row);
    case MenuPlaced(mac, _, _, _) => EventKeepsLog(w, Append(w, ScriptServed(mac)), ScriptServed(mac));
    case MenuMarked(_, _) =>
    case MenuChosen(mac, row, nextBoot) => MenuStepKeepsLog(w, mac, row, nextBoot);
  }

  lemma AdminStepKeepsLog(w: World, r: Request)
    requires LogOk(w) && !Fetching(r) && !InMenu(r)
    ensures LogOk(AdminStep(w, r).0)
  {
    match r
    case AssignChecked(mac, _, _, _, _, _, _) => CreatingKeepsLog(w, NewClient(mac));
    case AssignReady(mac, cluster, role, disk, patch, token, now) =>
      AssigningKeepsLog(w, mac, cluster, role, disk, patch, token, now + TOKEN_TTL, now);
      var v := AssignNodeToCluster(w, mac, cluster, role, disk, patch, token, now + TOKEN_TTL, now);
      EventKeepsLog(v, Append(v, Event.Approved(mac)), Event.Approved(mac));
    case ReinstallRead(mac, row, token, now) =>
      if row.clusterID.Some? {
        AssigningKeepsLog(w, mac, row.clusterID.value, row.clusterRole, row.installDisk, row.configPatch, token,
                          now + TOKEN_TTL, now);
      }
    case UnassignRead(mac) => ResettingKeepsLog(w, mac);
    case MarkInstalledRead(mac) => StateKeepsLog(w, mac, Installed);
    case DeleteClusterRead(id) => DetachingKeepsLog(w, id);
    case DeleteClusterDetached(id) => SameTokensKeepLog(w, RemoveCluster(w, id));
  }

  lemma StepKeepsLogOk(w: World, r: Request)
    requires LogOk(w) && RequestOk(w.log, r)
    ensures LogOk(NextStep(w, r).0)
  {
    if Fetching(r) {
      FetchStepKeepsLog(w, r);
    } else if InMenu(r) {
      MenuStageKeepsLog(w, r);
    } else {
      AdminStepKeepsLog(w, r);
    }
  }

  lemma MoveKeepsSafe(s: State, m: Move)
    requires Safe(s) && LegalMove(m)
    ensures Safe(Apply(s, m))
  {
    match m
    case Arrive(id, a) =>
      FirstReadIsOk(s.w, a);
    case Continue(id) =>
      if id in s.open {
        StepKeepsTokensOpen(s.w, s.open[id]);
        StepKeepsLogOk(s.w, s.open[id]);
        StepExtendsLog(s.w, s.open[id]);
        OthersStaySafe(s, Apply(s, m));
      }
    case Leave(id) =>
    case Whole(a) =>
      if SingleWrite(a) {
        WholeKeepsSafe(s.w, a);
        OthersStaySafe(s, Apply(s, m));
      }
  }

  lemma FirstReadIsOk(w: World, a: Action)
    requires LogOk(w)
    ensures FirstRead(w, a).Some? ==> RequestOk(w.log, FirstRead(w, a).value)
  {
    assert w.log[..|w.log|] == w.log;
    if a.FetchConfig? {
      assert TokenLogged(w, a.mac);
    }
  }

  /** r itself, or what r becomes: a config request goes on as the same one. */
  ghost predicate Follows(r: Request, next: Request) {
    next == r || (Fetching(next) ==> Fetching(r) && next.f == r.f)
  }

  lemma OthersStaySafe(s: State, t: State)
    requires s.w.log <= t.w.log
    requires forall id <- s.open :: RequestOk(s.w.log, s.open[id])
    requires forall id <- t.open :: id in s.open && Follows(s.open[id], t.open[id])
    ensures forall id <- t.open :: RequestOk(t.w.log, t.open[id])
  {
    forall id <- t.open ensures RequestOk(t.w.log, t.open[id]) {
      RequestsKept(s.w.log, t.w.log, s.open[id]);
    }
  }

  /** Over every interleaving of every set of requests: a token is held only by a node whose installation is open
      and which is assigned to a cluster, and each served config was backed by a live token when its row was read. */
  lemma {:induction false} EveryInterleavingIsSafe(moves: seq<Move>)
    requires forall m <- moves :: LegalMove(m)
    ensures Safe(Play(START, moves))
    decreases |moves|
  {
    if moves != [] {
      var front, m := moves[..|moves| - 1], moves[|moves| - 1];
      assert forall x <- front :: x in moves;
      EveryInterleavingIsSafe(front);
      MoveKeepsSafe(Play(START, front), m);
    }
  }
}
