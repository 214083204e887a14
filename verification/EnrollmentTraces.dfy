/** Concrete interleavings in which a guarantee of the undisturbed handlers is lost. */
module EnrollmentTraces {
  import opened Models
  import opened Enrollment
  import opened EnrollmentRaces
  import opened EnrollmentLosses
  import opened EnrollmentServings

  const SOME_CLUSTER := Cluster("c", Some(1), "", "", "")
  const SOME_IMAGE := NodeImage("n", "talos", true)
  const ENV := Env(true, true, (c: char) => c)

  /** A cluster with a node image, and a node assigned to it. */
  const SETUP: seq<Move> := [
    Whole(PutCluster(1, SOME_CLUSTER)),
    Whole(EditImages(map[], map[1 := SOME_IMAGE])),
    Arrive(0, Assign("m", 1, WORKER, "", "", "t", 0)),
    Continue(0),
    Continue(0)
  ]

  const NODE := NewClient("m").(enrollmentState := EnrollmentState.Approved, clusterID := Some(1),
                                clusterRole := WORKER, enrollmentToken := "t",
                                tokenExpiresAt := Some(TOKEN_TTL), approvedAt := Some(0), isStatic := true)

  const PAST := [Created("m"), TokenStored("m", "t", TOKEN_TTL), Event.Approved("m")]

  const READY := World(map["m" := NODE], map[1 := SOME_CLUSTER], map[1 := SOME_IMAGE], map[], map[], PAST)

  const FETCH := FetchConfig("m", "t", "", 0, ENV)

  /** A config request up to its write: token, hardware id, cluster, node image and rendering are all in order. */
  function FetchReads(id: nat): seq<Move> {
    [Arrive(id, FETCH), Continue(id), Continue(id), Continue(id)]
  }

  const READ := FetchReady(Fetch("m", "t", "", 0, NODE, 3))

  ghost predicate AllLegal(moves: seq<Move>) {
    forall m <- moves :: LegalMove(m)
  }

  lemma {:induction false} PlayAppend(s: State, a: seq<Move>, b: seq<Move>)
    ensures Play(s, a + b) == Play(Play(s, a), b)
    decreases |b|
  {
    if b == [] {
      assert a + b == a;
    } else {
      var n := |b| - 1;
      assert (a + b)[..|a| + n] == a + b[..n];
      PlayAppend(s, a, b[..n]);
    }
  }

  lemma PlayOne(s: State, m: Move)
    ensures Play(s, [m]) == Apply(s, m)
  {
    assert [m][..0] == [];
  }

  lemma PlayTwo(s: State, m: Move, n: Move)
    ensures Play(s, [m, n]) == Apply(Apply(s, m), n)
  {
    assert [m, n][..1] == [m];
    PlayOne(s, m);
  }

  lemma PlayFour(s: State, a: Move, b: Move, c: Move, d: Move)
    ensures Play(s, [a, b, c, d]) == Apply(Apply(Apply(Apply(s, a), b), c), d)
  {
    PlayTwo(s, a, b);
    PlayTwo(Play(s, [a, b]), c, d);
    PlayAppend(s, [a, b], [c, d]);
    assert [a, b] + [c, d] == [a, b, c, d];
  }

  const BARE := World(map[], map[1 := SOME_CLUSTER], map[1 := SOME_IMAGE], map[], map[], [])

  lemma TablesAreSet()
    ensures Apply(Apply(START, SETUP[0]), SETUP[1]) == State(BARE, map[])
  {
  }

  lemma AssignmentIsMade()
    ensures Apply(Apply(Apply(State(BARE, map[]), SETUP[2]), SETUP[3]), SETUP[4]) == State(READY, map[])
  {
    var checked := AssignChecked("m", 1, WORKER, "", "", "t", 0);
    var s3 := Apply(State(BARE, map[]), SETUP[2]);
    assert s3 == State(BARE, map[0 := checked]);
    var s4 := Apply(s3, SETUP[3]);
    var created := CreateClient(BARE, NewClient("m"));
    assert s4 == State(created, map[0 := AssignReady("m", 1, WORKER, "", "", "t", 0)]);
    var stored := AssignNodeToCluster(created, "m", 1, WORKER, "", "", "t", TOKEN_TTL, 0);
    assert stored.clients == map["m" := NODE] && stored.log + [Event.Approved("m")] == PAST;
  }

  lemma SetupIs()
    ensures Play(START, SETUP) == State(READY, map[]) && AllLegal(SETUP)
  {
    TablesAreSet();
    AssignmentIsMade();
    PlayFive(START, SETUP);
  }

  lemma PlayFive(s: State, moves: seq<Move>)
    requires |moves| == 5
    ensures Play(s, moves) == Apply(Apply(Apply(Apply(Apply(s, moves[0]), moves[1]), moves[2]), moves[3]), moves[4])
  {
    assert moves[..4] == [moves[0], moves[1], moves[2], moves[3]];
    PlayFour(s, moves[0], moves[1], moves[2], moves[3]);
  }

  lemma FetchArrives(s: State, id: nat)
    requires s.w == READY && id !in s.open
    ensures Apply(s, Arrive(id, FETCH)) == State(READY, s.open[id := FetchAccepted(READ.f, ENV)])
  {
  }

  lemma FetchChecks(s: State, id: nat)
    requires s.w == READY && id in s.open
    ensures s.open[id] == FetchAccepted(READ.f, ENV) ==>
            Apply(s, Continue(id)) == State(READY, s.open[id := FetchKnown(READ.f, ENV)])
    ensures s.open[id] == FetchKnown(READ.f, ENV) ==>
            Apply(s, Continue(id)) == State(READY, s.open[id := FetchPlaced(READ.f, ENV, 1)])
    ensures s.open[id] == FetchPlaced(READ.f, ENV, 1) ==> Apply(s, Continue(id)) == State(READY, s.open[id := READ])
  {
  }

  lemma FetchReadsIs(s: State, id: nat)
    requires s.w == READY && id !in s.open
    ensures Play(s, FetchReads(id)) == State(READY, s.open[id := READ]) && AllLegal(FetchReads(id))
  {
    FetchArrives(s, id);
    FetchRuns(Apply(s, Arrive(id, FETCH)), id);
    PlayFour(s, Arrive(id, FETCH), Continue(id), Continue(id), Continue(id));
    FetchReadsLegal(id);
  }

  lemma FetchReadsLegal(id: nat)
    ensures AllLegal(FetchReads(id))
  {
  }

  lemma FetchRuns(s: State, id: nat)
    requires s.w == READY && id in s.open && s.open[id] == FetchAccepted(READ.f, ENV)
    ensures Apply(Apply(Apply(s, Continue(id)), Continue(id)), Continue(id)) == State(READY, s.open[id := READ])
  {
    var s1 := Apply(s, Continue(id));
    FetchChecks(s, id);
    FetchChecks(s1, id);
    FetchChecks(Apply(s1, Continue(id)), id);
  }

  lemma OneRead()
    ensures Play(START, SETUP + FetchReads(0)) == State(READY, map[0 := READ]) && AllLegal(SETUP + FetchReads(0))
  {
    SetupIs();
    FetchReadsIs(State(READY, map[]), 0);
    PlayAppend(START, SETUP, FetchReads(0));
    assert map[][0 := READ] == map[0 := READ];
  }

  lemma TwoRead()
    ensures var moves := SETUP + FetchReads(0) + FetchReads(1);
            Play(START, moves) == State(READY, map[0 := READ, 1 := READ]) && AllLegal(moves)
  {
    OneRead();
    FetchReadsIs(State(READY, map[0 := READ]), 1);
    PlayAppend(START, SETUP + FetchReads(0), FetchReads(1));
    assert map[0 := READ][1 := READ] == map[0 := READ, 1 := READ];
  }

  /** A config request has read the node as approved and rendered its config; the administrator marks the node
      installed, which clears the token; the config request then marks it as installing. */
  lemma StaleMarkLosesPairing()
    ensures var before := SETUP + FetchReads(0) + [Arrive(1, MarkNodeInstalled("m")), Continue(1)];
            && AllLegal(before + [Continue(0)])
            && Paired(Play(START, before).w) && !Paired(Play(START, before + [Continue(0)]).w)
  {
    var hand := [Arrive(1, MarkNodeInstalled("m")), Continue(1)];
    var before := SETUP + FetchReads(0) + hand;
    OneRead();
    PlayAppend(START, SETUP + FetchReads(0), hand);
    PlayAppend(START, before, [Continue(0)]);
    var s := State(READY, map[0 := READ]);
    PlayTwo(s, hand[0], hand[1]);
    MarkingByHand(s, READ, NODE);
    var t := Play(START, before);
    PlayOne(t, Continue(0));
    StaleMark(t);
  }

  lemma StaleMark(t: State)
    requires t.open == map[0 := READ]
    requires t.w.clients ==
             map["m" := NODE.(enrollmentState := Installed, enrollmentToken := "", tokenExpiresAt := None)]
    ensures Paired(t.w) && !Paired(Apply(t, Continue(0)).w)
  {
    assert RowPaired(t.w.clients["m"]);
    FetchUnpairsIff(t.w, READ);
  }

  lemma MarkingByHand(s: State, r: Request, c: Client)
    requires s.open == map[0 := r] && s.w.clients == map["m" := c]
    ensures var t := Apply(Apply(s, Arrive(1, MarkNodeInstalled("m"))), Continue(1));
            && t.open == map[0 := r]
            && t.w.clients == map["m" := c.(enrollmentState := Installed, enrollmentToken := "",
                                            tokenExpiresAt := None)]
  {
    var t := Apply(s, Arrive(1, MarkNodeInstalled("m")));
    assert t == s.(open := map[0 := r, 1 := MarkInstalledRead("m")]);
  }

  /** Two config requests that both read the node as approved announce the same installation twice. */
  lemma TwoFetchesAnnounceTwice()
    ensures var moves := SETUP + FetchReads(0) + FetchReads(1) + [Continue(0), Continue(1)];
            AllLegal(moves) && Fired(Play(START, moves).w.log, "m", false) == 2
  {
    var front, last := SETUP + FetchReads(0) + FetchReads(1), [Continue(0), Continue(1)];
    TwoRead();
    PlayAppend(START, front, last);
    var s := State(READY, map[0 := READ, 1 := READ]);
    PlayTwo(s, Continue(0), Continue(1));
    MarkAnnounces(s, 0);
    MarkAnnounces(Apply(s, Continue(0)), 1);
    TwoStartsCount();
  }

  lemma TwoStartsCount()
    ensures Fired(PAST + [Started("m")] + [Started("m")], "m", false) == 2
  {
    CountsAfter(PAST, Started("m"), "m");
    CountsAfter(PAST + [Started("m")], Started("m"), "m");
    SetupFiredNothing();
  }

  lemma MarkAnnounces(s: State, id: nat)
    requires id in s.open && s.open[id] == READ && "m" in s.w.clients
    ensures var t := Apply(s, Continue(id));
            && t.w.log == s.w.log + [Started("m")] && "m" in t.w.clients
            && forall other <- s.open | other != id :: other in t.open && t.open[other] == s.open[other]
  {
  }

  lemma SetupFiredNothing()
    ensures Fired(PAST, "m", false) == 0
  {
    var front := [Created("m"), TokenStored("m", "t", TOKEN_TTL)];
    assert PAST == front + [Event.Approved("m")];
    CountsAfter(front, Event.Approved("m"), "m");
    assert front == [Created("m")] + [TokenStored("m", "t", TOKEN_TTL)];
    CountsAfter([Created("m")], TokenStored("m", "t", TOKEN_TTL), "m");
  }

  /** The cluster is deleted between the check and the write of an assignment: the node holds a token for a cluster
      that does not exist. */
  lemma AssignOutlivesCluster()
    ensures var moves := SETUP
                         + [Arrive(0, Assign("m", 1, WORKER, "", "", "u", 0)), Arrive(1, RemoveClusterAction(1))]
                         + [Continue(1), Continue(1)] + [Continue(0), Continue(0)];
            var w := Play(START, moves).w;
            && AllLegal(moves) && !NamesClusters(w)
            && "m" in w.clients && w.clients["m"].enrollmentToken == "u" && w.clients["m"].clusterID == Some(1)
  {
    var come := [Arrive(0, Assign("m", 1, WORKER, "", "", "u", 0)), Arrive(1, RemoveClusterAction(1))];
    BothRead();
    PlayAppend(START, SETUP + come, [Continue(1), Continue(1)]);
    PlayAppend(START, SETUP + come + [Continue(1), Continue(1)], [Continue(0), Continue(0)]);
    var checked := AssignChecked("m", 1, WORKER, "", "", "u", 0);
    var s := State(READY, map[0 := checked, 1 := DeleteClusterRead(1)]);
    PlayTwo(s, Continue(1), Continue(1));
    DeleteFinishes(s, checked);
    var t := Play(s, [Continue(1), Continue(1)]);
    PlayTwo(t, Continue(0), Continue(0));
    AssignFinishes(t, checked);
  }

  lemma BothRead()
    ensures var come := [Arrive(0, Assign("m", 1, WORKER, "", "", "u", 0)), Arrive(1, RemoveClusterAction(1))];
            && AllLegal(SETUP + come)
            && Play(START, SETUP + come)
               == State(READY, map[0 := AssignChecked("m", 1, WORKER, "", "", "u", 0), 1 := DeleteClusterRead(1)])
  {
    var come := [Arrive(0, Assign("m", 1, WORKER, "", "", "u", 0)), Arrive(1, RemoveClusterAction(1))];
    SetupIs();
    PlayAppend(START, SETUP, come);
    PlayTwo(State(READY, map[]), come[0], come[1]);
    var checked := AssignChecked("m", 1, WORKER, "", "", "u", 0);
    assert Apply(State(READY, map[]), come[0]).open == map[0 := checked];
    assert Apply(Apply(State(READY, map[]), come[0]), come[1]).open == map[0 := checked, 1 := DeleteClusterRead(1)];
  }

  lemma DeleteFinishes(s: State, r: Request)
    requires s.open == map[0 := r, 1 := DeleteClusterRead(1)]
    ensures var t := Apply(Apply(s, Continue(1)), Continue(1));
            t.open == map[0 := r] && t.w.clients.Keys == s.w.clients.Keys && 1 !in t.w.clusters
  {
    var t := Apply(s, Continue(1));
    assert t.open == map[0 := r, 1 := DeleteClusterDetached(1)];
  }

  lemma AssignFinishes(s: State, r: Request)
    requires s.open == map[0 := r] && r.AssignChecked? && r.mac in s.w.clients
    ensures var t := Apply(Apply(s, Continue(0)), Continue(0));
            && r.mac in t.w.clients && t.w.clients[r.mac].enrollmentToken == r.token
            && t.w.clients[r.mac].clusterID == Some(r.cluster) && t.w.clusters == s.w.clusters
  {
    var t := Apply(s, Continue(0));
    assert t.open[0] == AssignReady(r.mac, r.cluster, r.role, r.disk, r.patch, r.token, r.now) && t.w == s.w;
  }

  /** A config request has marked the node; the administrator takes the node out of its cluster, which clears the
      token; the config is answered all the same. */
  lemma ConfigOutlivesToken()
    ensures var before := SETUP + FetchReads(0) + [Continue(0), Arrive(1, Unassign("m")), Continue(1)];
            && AllLegal(before + [Continue(0)])
            && StillBacked(Play(START, before).w.log) && !StillBacked(Play(START, before + [Continue(0)]).w.log)
  {
    var taken := [Continue(0), Arrive(1, Unassign("m")), Continue(1)];
    var before := SETUP + FetchReads(0) + taken;
    OneRead();
    PlayAppend(START, SETUP + FetchReads(0), taken);
    PlayAppend(START, before, [Continue(0)]);
    var s := State(READY, map[0 := READ]);
    PlayThree(s, taken[0], taken[1], taken[2]);
    MarkThenUnassign(s);
    var t := Play(START, before);
    PlayOne(t, Continue(0));
    LateAnswer(t);
  }

  lemma PlayThree(s: State, a: Move, b: Move, c: Move)
    ensures Play(s, [a, b, c]) == Apply(Apply(Apply(s, a), b), c)
  {
    PlayTwo(s, a, b);
    assert [a, b, c][..2] == [a, b];
  }

  const TAKEN := PAST + [Started("m"), TokensCleared({"m"})]

  lemma MarkThenUnassign(s: State)
    requires s == State(READY, map[0 := READ])
    ensures var t := Apply(Apply(Apply(s, Continue(0)), Arrive(1, Unassign("m"))), Continue(1));
            t.open == map[0 := FetchMarked(READ.f)] && t.w.log == TAKEN
  {
    var a := Apply(s, Continue(0));
    assert a.open == map[0 := FetchMarked(READ.f)];
    assert a.w.log == PAST + [Started("m")] && "m" in a.w.clients;
    var b := Apply(a, Arrive(1, Unassign("m")));
    assert b.open == map[0 := FetchMarked(READ.f), 1 := UnassignRead("m")];
    var c := Apply(b, Continue(1));
    assert c.open == map[0 := FetchMarked(READ.f)];
  }

  lemma LateAnswer(t: State)
    requires t.open == map[0 := FetchMarked(READ.f)] && t.w.log == TAKEN
    ensures StillBacked(t.w.log) && !StillBacked(Apply(t, Continue(0)).w.log)
  {
    var front, e := PAST + [Started("m")], ConfigServed("m", "t", "", 0, 3);
    assert TAKEN == front + [TokensCleared({"m"})];
    LastWriteAfter(front, TokensCleared({"m"}), "m");
    AnsweringKeepsIff(TAKEN, e);
    assert Apply(t, Continue(0)).w.log == TAKEN + [e];
  }

  // ---- Two menus for one setting ----

  const BOOTING: seq<Move> := [
    Whole(Inventory("m", "")),
    Whole(EditImages(map["i" := Image(1, true)], map[])),
    Whole(SetNextBoot("m", "i"))
  ]

  const SET := NewClient("m").(nextBootImage := "i")

  const CHOSEN := MenuChosen("m", SET, 1)

  /** A boot request up to its write: it finds the node with its setting, and the image that names. */
  function MenuReads(id: nat): seq<Move> {
    [Arrive(id, BootMenu("m", 0, ENV)), Continue(id), Continue(id)]
  }

  const BOOTED := World(map["m" := SET], map[], map[], map["i" := Image(1, true)], map["m" := ""],
                        [Created("m"), NextBootSet("m")])

  lemma BootingIs()
    ensures Play(START, BOOTING) == State(BOOTED, map[]) && AllLegal(BOOTING)
  {
    PlayThree(START, BOOTING[0], BOOTING[1], BOOTING[2]);
    var a := Apply(START, BOOTING[0]);
    assert a.w == World(map["m" := NewClient("m")], map[], map[], map[], map["m" := ""], [Created("m")]);
    var b := Apply(a, BOOTING[1]);
    assert Apply(b, BOOTING[2]).w.log == [Created("m"), NextBootSet("m")];
  }

  lemma MenuReadsIs(s: State, id: nat)
    requires s.w == BOOTED && id !in s.open
    ensures Play(s, MenuReads(id)) == State(BOOTED, s.open[id := CHOSEN])
  {
    var moves := MenuReads(id);
    PlayThree(s, moves[0], moves[1], moves[2]);
    var a := Apply(s, moves[0]);
    assert a == State(BOOTED, s.open[id := MenuRead("m", SET, 0, ENV)]);
    var b := Apply(a, moves[1]);
    assert b == State(BOOTED, s.open[id := MenuMarked("m", SET)]);
    assert NextBootID(BOOTED, SET) == 1;
    assert Apply(b, moves[2]) == State(BOOTED, s.open[id := CHOSEN]);
  }

  lemma LegalAppend(a: seq<Move>, b: seq<Move>)
    requires AllLegal(a) && AllLegal(b)
    ensures AllLegal(a + b)
  {
  }

  /** moves come to the state s; then a boot request reads. */
  lemma MenuReadsAfter(moves: seq<Move>, s: State, id: nat)
    requires Play(START, moves) == s && AllLegal(moves) && s.w == BOOTED && id !in s.open
    ensures Play(START, moves + MenuReads(id)) == State(BOOTED, s.open[id := CHOSEN])
    ensures AllLegal(moves + MenuReads(id))
  {
    PlayAppend(START, moves, MenuReads(id));
    MenuReadsIs(s, id);
    LegalAppend(moves, MenuReads(id));
  }

  lemma BothMenusRead()
    ensures var moves := BOOTING + MenuReads(0) + MenuReads(1);
            Play(START, moves) == State(BOOTED, map[0 := CHOSEN, 1 := CHOSEN]) && AllLegal(moves)
  {
    BootingIs();
    MenuReadsAfter(BOOTING, State(BOOTED, map[]), 0);
    MenuReadsAfter(BOOTING + MenuReads(0), State(BOOTED, map[0 := CHOSEN]), 1);
  }

  /** Two boot requests that both read the setting preselect its image in two menus. */
  lemma TwoMenusPreselectTwice()
    ensures var moves := BOOTING + MenuReads(0) + MenuReads(1) + [Continue(0), Continue(1)];
            AllLegal(moves) && Preselected(Play(START, moves).w.log, "m") == 2
  {
    BothMenusRead();
    PlayAppend(START, BOOTING + MenuReads(0) + MenuReads(1), [Continue(0), Continue(1)]);
    TwoMenusGoOut(State(BOOTED, map[0 := CHOSEN, 1 := CHOSEN]));
  }

  lemma TwoMenusGoOut(s: State)
    requires s.w.log == [Created("m")] + [NextBootSet("m")] && s.open == map[0 := CHOSEN, 1 := CHOSEN]
    ensures Preselected(Play(s, [Continue(0), Continue(1)]).w.log, "m") == 2
  {
    PlayTwo(s, Continue(0), Continue(1));
    CountsAfter([Created("m")], NextBootSet("m"), "m");
    MenuGoesOut(s, 0);
    MenuGoesOut(Apply(s, Continue(0)), 1);
  }

  lemma MenuGoesOut(s: State, id: nat)
    requires id in s.open && s.open[id] == CHOSEN
    ensures var t := Apply(s, Continue(id));
            && t.open == s.open - {id} && t.w.log == s.w.log + [MenuServed("m", 1)]
            && Preselected(t.w.log, "m") == Preselected(s.w.log, "m") + 1
  {
    ServingPreselects(s.w, "m", SET, 1);
    CountsAfter(s.w.log, MenuServed("m", 1), "m");
  }
}
