/** How often interleaved requests announce the start and the completion of one installation, and exactly when it is
    more than once. */
module EnrollmentAnnouncements {
  import opened Models
  import opened Enrollment
  import opened EnrollmentRaces
  import opened EnrollmentLosses

  // ---- How often an installation is announced ----

  ghost predicate AnnouncedOnceEach(log: seq<Event>) {
    forall mac :: OnceEach(log, mac)
  }

  /** This announcement comes a second time since the latest token store, or a completion before the start. */
  predicate Again(log: seq<Event>, e: Event) {
    || (e.Started? && Fired(log, e.mac, false) == 1)
    || (e.Completed? && Fired(log, e.mac, true) == Fired(log, e.mac, false))
  }

  lemma EventAgainIff(log: seq<Event>, e: Event)
    requires AnnouncedOnceEach(log)
    ensures AnnouncedOnceEach(log + [e]) <==> !Again(log, e)
  {
    forall mac ensures OnceEach(log + [e], mac) <==> !((e == Started(mac) || e == Completed(mac)) && Again(log, e)) {
      assert OnceEach(log, mac);
      CountsAfter(log, e, mac);
    }
    if e.Started? || e.Completed? {
      assert OnceEach(log + [e], e.mac) <==> !Again(log, e);
    }
  }

  /** What the next step of a request announces, if anything. */
  function Announcement(w: World, r: Request): Option<Event> {
    if r.FetchReady? && r.f.row.enrollmentState == EnrollmentState.Approved && r.f.mac in w.clients
    then Some(Started(r.f.mac))
    else if r.MenuRead? && r.row.enrollmentState == Installing && r.mac in w.clients then Some(Completed(r.mac))
    else None
  }

  predicate Reannounces(s: State, m: Move) {
    m.Continue? && m.id in s.open && Announcement(s.w, s.open[m.id]).Some? &&
    Again(s.w.log, Announcement(s.w, s.open[m.id]).value)
  }

  predicate Quiet(log: seq<Event>, longer: seq<Event>) {
    log <= longer && forall i | |log| <= i < |longer| :: !longer[i].Started? && !longer[i].Completed?
  }

  lemma {:induction false} QuietKeepsOnce(log: seq<Event>, longer: seq<Event>)
    requires AnnouncedOnceEach(log) && Quiet(log, longer)
    ensures AnnouncedOnceEach(longer)
    decreases |longer|
  {
    var n := |longer| - 1;
    if |log| <= n {
      QuietKeepsOnce(log, longer[..n]);
      EventAgainIff(longer[..n], longer[n]);
      assert longer[..n] + [longer[n]] == longer;
    } else {
      assert longer == log;
    }
  }

  lemma FetchAnnouncesIff(w: World, r: Request)
    requires AnnouncedOnceEach(w.log) && Fetching(r)
    ensures AnnouncedOnceEach(FetchStep(w, r).0.log) <==>
            !(Announcement(w, r).Some? && Again(w.log, Announcement(w, r).value))
  {
    if r.FetchReady? && Announcement(w, r).Some? {
      EventAgainIff(w.log, Started(r.f.mac));
    } else {
      QuietKeepsOnce(w.log, FetchStep(w, r).0.log);
    }
  }

  lemma CompletingAnnouncesIff(w: World, mac: string)
    requires AnnouncedOnceEach(w.log) && mac in w.clients
    ensures AnnouncedOnceEach(Append(SetClientEnrollmentState(w, mac, Installed), Completed(mac)).log) <==>
            !Again(w.log, Completed(mac))
  {
    var cleared := w.log + [TokensCleared({mac})];
    CountsAfter(w.log, TokensCleared({mac}), mac);
    EventAgainIff(w.log, TokensCleared({mac}));
    EventAgainIff(cleared, Completed(mac));
  }

  lemma MenuAnnouncesIff(w: World, r: Request)
    requires AnnouncedOnceEach(w.log) && InMenu(r)
    ensures AnnouncedOnceEach(MenuStep(w, r).0.log) <==>
            !(Announcement(w, r).Some? && Again(w.log, Announcement(w, r).value))
  {
    if Announcement(w, r).Some? {
      CompletingAnnouncesIff(w, r.mac);
    } else {
      QuietKeepsOnce(w.log, MenuStep(w, r).0.log);
    }
  }

  lemma AdminIsQuiet(w: World, r: Request)
    requires !Fetching(r) && !InMenu(r)
    ensures Quiet(w.log, AdminStep(w, r).0.log)
  {
  }

  lemma WholeIsQuiet(w: World, a: Action)
    requires SingleWrite(a)
    ensures Quiet(w.log, Step(w, a).log)
  {
  }

  lemma MoveReannouncesIff(s: State, m: Move)
    requires AnnouncedOnceEach(s.w.log)
    ensures AnnouncedOnceEach(Apply(s, m).w.log) <==> !Reannounces(s, m)
  {
    match m
    case Arrive(_, _) =>
    case Continue(id) =>
      if id in s.open {
        var r := s.open[id];
        if Fetching(r) {
          FetchAnnouncesIff(s.w, r);
        } else if InMenu(r) {
          MenuAnnouncesIff(s.w, r);
        } else {
          AdminIsQuiet(s.w, r);
          QuietKeepsOnce(s.w.log, AdminStep(s.w, r).0.log);
        }
      }
    case Leave(_) =>
    case Whole(a) =>
      if SingleWrite(a) {
        WholeIsQuiet(s.w, a);
        QuietKeepsOnce(s.w.log, Step(s.w, a).log);
      }
  }

  /** Over every interleaving, starts and completions are announced at most once per token store, a completion only
      after a start, from start to end, exactly when no marking write announces what was announced since that store. */
  lemma {:induction false} OnceEachIff(moves: seq<Move>)
    ensures (forall k | 0 <= k <= |moves| :: AnnouncedOnceEach(At(moves, k).w.log)) <==>
            forall k | 0 <= k < |moves| :: !Reannounces(At(moves, k), moves[k])
  {
    forall k | 0 <= k < |moves| && AnnouncedOnceEach(At(moves, k).w.log)
      ensures AnnouncedOnceEach(Apply(At(moves, k), moves[k]).w.log) <==> !Reannounces(At(moves, k), moves[k])
    {
      MoveReannouncesIff(At(moves, k), moves[k]);
    }
    LastsIff((s: State) => AnnouncedOnceEach(s.w.log), (s: State, m: Move) => Reannounces(s, m), moves);
  }

  // ---- Enough for it: every marking write finds the row as it was read ----

  /** A marking write that finds the row approved still, or installing still. */
  predicate FindsItsRow(s: State, m: Move) {
    m.Continue? && m.id in s.open ==>
      var e := Announcement(s.w, s.open[m.id]);
      e.Some? ==>
        s.w.clients[e.value.mac].enrollmentState == if e.value.Started? then EnrollmentState.Approved else Installing
  }

  lemma FetchKeepsAnnounced(w: World, r: Request)
    requires Announced(w) && Fetching(r)
    requires Announcement(w, r).Some? ==> w.clients[r.f.mac].enrollmentState == EnrollmentState.Approved
    ensures Announced(FetchStep(w, r).0)
  {
    if Announcement(w, r).Some? {
      StartingKeepsCounts(w, r.f.mac);
    } else if r.FetchMarked? {
      var e := ConfigServed(r.f.mac, r.f.token, r.f.uuid, r.f.at, r.f.readAt);
      EventKeepsCounts(w, Append(w, e), e);
    }
  }

  lemma MenuKeepsAnnounced(w: World, r: Request)
    requires Announced(w) && InMenu(r)
    requires Announcement(w, r).Some? ==> w.clients[r.mac].enrollmentState == Installing
    ensures Announced(MenuStep(w, r).0)
  {
    if Announcement(w, r).Some? {
      CompletingKeepsCounts(w, r.mac);
    } else if r.MenuPlaced? {
      EventKeepsCounts(w, Append(w, ScriptServed(r.mac)), ScriptServed(r.mac));
    } else if r.MenuChosen? {
      ServingKeepsCounts(w, r.mac, r.row, r.nextBoot);
    }
  }

  lemma AdminKeepsCounts(w: World, r: Request)
    requires !Fetching(r) && !InMenu(r)
    ensures KeepCounts(w, AdminStep(w, r).0)
  {
    if OfNode(r) {
      NodeKeepsCounts(w, r);
    } else if r.DeleteClusterRead? {
      DetachingKeepsCounts(w, r.id);
    } else {
      EditingKeepsCounts(w, RemoveCluster(w, r.id));
    }
  }

  lemma NodeKeepsCounts(w: World, r: Request)
    requires OfNode(r)
    ensures KeepCounts(w, AdminStep(w, r).0)
  {
    if r.AssignChecked? {
      CreatingKeepsCounts(w, NewClient(r.mac));
    } else if r.AssignReady? {
      AssignReadyKeepsCounts(w, r);
    } else if r.ReinstallRead? {
      ReinstallReadKeepsCounts(w, r);
    } else {
      ClearingKeepsCounts(w, r.mac, Installed);
    }
  }

  lemma AssignReadyKeepsCounts(w: World, r: Request)
    requires r.AssignReady?
    ensures KeepCounts(w, AdminStep(w, r).0)
  {
    ApprovingKeepsCounts(w, r.mac, r.cluster, r.role, r.disk, r.patch, r.token, r.now + TOKEN_TTL, r.now);
  }

  lemma ReinstallReadKeepsCounts(w: World, r: Request)
    requires r.ReinstallRead?
    ensures KeepCounts(w, AdminStep(w, r).0)
  {
    if r.row.clusterID.Some? {
      AssigningKeepsCounts(w, r.mac, r.row.clusterID.value, r.row.clusterRole, r.row.installDisk, r.row.configPatch,
                           r.token, r.now + TOKEN_TTL, r.now);
    }
  }

  lemma MoveKeepsAnnounced(s: State, m: Move)
    requires Announced(s.w) && FindsItsRow(s, m) && (m.Whole? ==> Plain(m.a))
    ensures Announced(Apply(s, m).w)
  {
    match m
    case Arrive(_, _) =>
    case Continue(id) =>
      if id in s.open {
        var r := s.open[id];
        if Fetching(r) {
          FetchKeepsAnnounced(s.w, r);
        } else if InMenu(r) {
          MenuKeepsAnnounced(s.w, r);
        } else {
          AdminKeepsCounts(s.w, r);
        }
      }
    case Leave(_) =>
    case Whole(a) =>
      StepKeepsCounts(s.w, a);
  }

  /** Over every interleaving in which each marking write still finds the state it read, with clients added without
      enrolment fields, starts and completions are announced at most once per token store. */
  lemma {:induction false} FreshMarksAnnounceOnce(moves: seq<Move>, k: nat)
    requires k <= |moves| && forall m <- moves :: m.Whole? ==> Plain(m.a)
    requires forall j | 0 <= j < k :: FindsItsRow(At(moves, j), moves[j])
    ensures Announced(At(moves, k).w)
    decreases k
  {
    if k > 0 {
      FreshMarksAnnounceOnce(moves, k - 1);
      AtNext(moves, k - 1);
      MoveKeepsAnnounced(At(moves, k - 1), moves[k - 1]);
    }
  }

  /** A mark that finds the node marked already announces the installation again. */
  lemma SecondMarkAnnouncesAgain(s: State, m: Move)
    requires Announced(s.w) && m.Continue? && m.id in s.open && s.open[m.id].FetchReady?
    requires Announcement(s.w, s.open[m.id]) == Some(Started(s.open[m.id].f.mac))
    requires s.w.clients[s.open[m.id].f.mac].enrollmentState == Installing
    ensures !AnnouncedOnceEach(Apply(s, m).w.log)
  {
    var mac := s.open[m.id].f.mac;
    assert RowAnnounced(s.w.log, mac, s.w.clients[mac]);
    forall mac ensures OnceEach(s.w.log, mac) {
      assert s.w.log[..|s.w.log|] == s.w.log && OnceEach(s.w.log[..|s.w.log|], mac);
    }
    MoveReannouncesIff(s, m);
  }
}
