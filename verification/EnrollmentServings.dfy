/** Whether what interleaved requests serve is still in order when they serve it: a config on a live token, and a menu
    that uses up a next-boot setting. */
module EnrollmentServings {
  import opened Models
  import opened Enrollment
  import opened EnrollmentRaces
  import opened EnrollmentLosses
  import opened EnrollmentAnnouncements

  // ---- Configs ----

  function RowOf(w: World, mac: string): Option<Client> {
    if mac in w.clients then Some(w.clients[mac]) else None
  }

  /** A config is answered to a node whose row would no longer pass the token check of its request. */
  predicate AnswersLate(s: State, m: Move) {
    m.Continue? && m.id in s.open && s.open[m.id].FetchMarked? &&
    var f := s.open[m.id].f;
    ValidateToken(RowOf(s.w, f.mac), f.token, f.at).Some?
  }

  /** The token check on the row tells whether the latest write in the log still backs the token. */
  lemma CheckTellsBacking(w: World, mac: string, token: string, at: int)
    requires TokensLogged(w) && TokensOpen(w) && token != ""
    ensures ValidateToken(RowOf(w, mac), token, at).None? <==> Backs(LastWrite(w.log, mac), mac, token, at)
  {
    assert TokenLogged(w, mac);
  }

  lemma AnsweringKeepsIff(log: seq<Event>, e: Event)
    requires StillBacked(log) && e.ConfigServed?
    ensures StillBacked(log + [e]) <==> Backs(LastWrite(log, e.mac), e.mac, e.token, e.at)
  {
    var l := log + [e];
    if StillBacked(l) {
      assert l[|log|] == e && l[..|log|] == log;
    }
    if Backs(LastWrite(log, e.mac), e.mac, e.token, e.at) {
      ServingKeepsStillBacked(log, e);
    }
  }

  lemma FetchAnswersNone(w: World, r: Request)
    requires Fetching(r) && !r.FetchMarked?
    ensures Extends(w.log, FetchStep(w, r).0.log)
  {
  }

  lemma MenuAnswersNone(w: World, r: Request)
    requires InMenu(r)
    ensures Extends(w.log, MenuStep(w, r).0.log)
  {
    if r.MenuChosen? {
      MenuStepServesNoConfig(w, r.mac, r.row, r.nextBoot);
    }
  }

  lemma AdminAnswersNone(w: World, r: Request)
    requires !Fetching(r) && !InMenu(r)
    ensures Extends(w.log, AdminStep(w, r).0.log)
  {
  }

  lemma MoveAnswersLateIff(s: State, m: Move)
    requires Safe(s) && StillBacked(s.w.log)
    ensures StillBacked(Apply(s, m).w.log) <==> !AnswersLate(s, m)
  {
    var log, longer := s.w.log, Apply(s, m).w.log;
    match m
    case Arrive(_, _) =>
    case Continue(id) =>
      if id in s.open {
        var r := s.open[id];
        if r.FetchMarked? {
          assert RequestOk(log, r);
          CheckTellsBacking(s.w, r.f.mac, r.f.token, r.f.at);
          AnsweringKeepsIff(log, ConfigServed(r.f.mac, r.f.token, r.f.uuid, r.f.at, r.f.readAt));
        } else {
          if Fetching(r) {
            FetchAnswersNone(s.w, r);
          } else if InMenu(r) {
            MenuAnswersNone(s.w, r);
          } else {
            AdminAnswersNone(s.w, r);
          }
          ExtensionKeepsStillBacked(log, longer);
        }
      }
    case Leave(_) =>
    case Whole(a) =>
      if SingleWrite(a) {
        OthersServeNoConfig(s.w, a);
        ExtensionKeepsStillBacked(log, longer);
      }
  }

  /** Over every interleaving, each config is served on the token last stored for its node, from start to end, exactly
      when none is answered to a node whose row would no longer pass the token check. */
  lemma {:induction false} AnswersLastIff(moves: seq<Move>)
    requires forall m <- moves :: LegalMove(m)
    ensures (forall k | 0 <= k <= |moves| :: StillBacked(At(moves, k).w.log)) <==>
            forall k | 0 <= k < |moves| :: !AnswersLate(At(moves, k), moves[k])
  {
    forall k | 0 <= k < |moves| && StillBacked(At(moves, k).w.log)
      ensures StillBacked(Apply(At(moves, k), moves[k]).w.log) <==> !AnswersLate(At(moves, k), moves[k])
    {
      assert forall m <- moves[..k] :: m in moves;
      EveryInterleavingIsSafe(moves[..k]);
      MoveAnswersLateIff(At(moves, k), moves[k]);
    }
    LastsIff((s: State) => StillBacked(s.w.log), (s: State, m: Move) => AnswersLate(s, m), moves);
  }

  // ---- Next-boot settings ----

  ghost predicate UsedOnceEach(log: seq<Event>) {
    forall mac :: Preselected(log, mac) <= 1
  }

  /** The menu that a request is about to serve preselects an image. */
  predicate WillPreselect(s: State, m: Move) {
    m.Continue? && m.id in s.open && s.open[m.id].MenuChosen? &&
    s.open[m.id].row.nextBootImage != "" && s.open[m.id].nextBoot != 0
  }

  /** For a node that got such a menu since its latest setting already. */
  predicate PreselectsAgain(s: State, m: Move) {
    WillPreselect(s, m) && Preselected(s.w.log, s.open[m.id].mac) == 1
  }

  /** log grew by events that preselect nothing. */
  predicate PreselectsNone(log: seq<Event>, longer: seq<Event>) {
    log <= longer && forall i | |log| <= i < |longer| :: !(longer[i].MenuServed? && longer[i].nextBoot != 0)
  }

  lemma {:induction false} NoneKeepsUsedOnce(log: seq<Event>, longer: seq<Event>)
    requires UsedOnceEach(log) && PreselectsNone(log, longer)
    ensures UsedOnceEach(longer)
    decreases |longer|
  {
    var n := |longer| - 1;
    if |log| <= n {
      NoneKeepsUsedOnce(log, longer[..n]);
      forall mac ensures Preselected(longer, mac) <= 1 {
        assert longer[..n] + [longer[n]] == longer && Preselected(longer[..n], mac) <= 1;
        CountsAfter(longer[..n], longer[n], mac);
      }
    } else {
      assert longer == log;
    }
  }

  lemma PreselectingKeepsIff(log: seq<Event>, mac: string, image: nat)
    requires UsedOnceEach(log) && image != 0
    ensures UsedOnceEach(log + [MenuServed(mac, image)]) <==> Preselected(log, mac) != 1
  {
    var longer := log + [MenuServed(mac, image)];
    forall m ensures Preselected(longer, m) == Preselected(log, m) + if m == mac then 1 else 0 {
      CountsAfter(log, MenuServed(mac, image), m);
    }
    assert Preselected(log, mac) <= 1;
    forall m | m != mac ensures Preselected(longer, m) <= 1 {
      assert Preselected(log, m) <= 1;
    }
  }

  lemma ServingPreselects(w: World, mac: string, row: Client, image: nat)
    ensures ServeMenu(w, mac, row, image).log == w.log + [MenuServed(mac, if row.nextBootImage == "" then 0 else image)]
  {
    assert SetNextBootImage(w, mac, "").log == w.log;
  }

  lemma MenuPreselectsIff(s: State, m: Move)
    requires UsedOnceEach(s.w.log) && m.Continue? && m.id in s.open && InMenu(s.open[m.id])
    ensures UsedOnceEach(MenuStep(s.w, s.open[m.id]).0.log) <==> !PreselectsAgain(s, m)
  {
    var r := s.open[m.id];
    if r.MenuChosen? {
      ServingPreselects(s.w, r.mac, r.row, r.nextBoot);
      if WillPreselect(s, m) {
        PreselectingKeepsIff(s.w.log, r.mac, r.nextBoot);
      } else {
        NoneKeepsUsedOnce(s.w.log, s.w.log + [MenuServed(r.mac, 0)]);
      }
    } else {
      NoneKeepsUsedOnce(s.w.log, MenuStep(s.w, r).0.log);
    }
  }

  lemma FetchPreselectsNone(w: World, r: Request)
    requires Fetching(r)
    ensures PreselectsNone(w.log, FetchStep(w, r).0.log)
  {
  }

  lemma AdminPreselectsNone(w: World, r: Request)
    requires !Fetching(r) && !InMenu(r)
    ensures PreselectsNone(w.log, AdminStep(w, r).0.log)
  {
  }

  lemma WholePreselectsNone(w: World, a: Action)
    requires SingleWrite(a)
    ensures PreselectsNone(w.log, Step(w, a).log)
  {
  }

  lemma MovePreselectsAgainIff(s: State, m: Move)
    requires UsedOnceEach(s.w.log)
    ensures UsedOnceEach(Apply(s, m).w.log) <==> !PreselectsAgain(s, m)
  {
    match m
    case Arrive(_, _) =>
    case Continue(id) =>
      if id in s.open {
        if InMenu(s.open[id]) {
          MenuPreselectsIff(s, m);
        } else {
          if Fetching(s.open[id]) {
            FetchPreselectsNone(s.w, s.open[id]);
          } else {
            AdminPreselectsNone(s.w, s.open[id]);
          }
          NoneKeepsUsedOnce(s.w.log, Apply(s, m).w.log);
        }
      }
    case Leave(_) =>
    case Whole(a) =>
      if SingleWrite(a) {
        WholePreselectsNone(s.w, a);
        NoneKeepsUsedOnce(s.w.log, Apply(s, m).w.log);
      }
  }

  /** Over every interleaving, each next-boot setting preselects an image in at most one menu, from start to end,
      exactly when no menu preselects one for a node that got such a menu since its latest setting. */
  lemma {:induction false} SettingsLastIff(moves: seq<Move>)
    ensures (forall k | 0 <= k <= |moves| :: UsedOnceEach(At(moves, k).w.log)) <==>
            forall k | 0 <= k < |moves| :: !PreselectsAgain(At(moves, k), moves[k])
  {
    forall k | 0 <= k < |moves| && UsedOnceEach(At(moves, k).w.log)
      ensures UsedOnceEach(Apply(At(moves, k), moves[k]).w.log) <==> !PreselectsAgain(At(moves, k), moves[k])
    {
      MovePreselectsAgainIff(At(moves, k), moves[k]);
    }
    LastsIff((s: State) => UsedOnceEach(s.w.log), (s: State, m: Move) => PreselectsAgain(s, m), moves);
  }

  // ---- Enough for it: every menu that preselects finds the setting still there ----

  predicate FindsItsSetting(s: State, m: Move) {
    WillPreselect(s, m) ==> HasSetting(s.w, s.open[m.id].mac)
  }

  lemma FetchKeepsSettings(w: World, r: Request)
    requires SettingsUsedOnce(w) && Fetching(r)
    ensures SettingsUsedOnce(FetchStep(w, r).0)
  {
    if r.FetchReady? {
      MarkingKeepsSettings(w, r.f.mac, r.f.row);
    } else if r.FetchMarked? {
      var e := ConfigServed(r.f.mac, r.f.token, r.f.uuid, r.f.at, r.f.readAt);
      EventKeepsCounts(w, Append(w, e), e);
    }
  }

  lemma MenuKeepsSettings(s: State, m: Move)
    requires SettingsUsedOnce(s.w) && m.Continue? && m.id in s.open && InMenu(s.open[m.id]) && FindsItsSetting(s, m)
    ensures SettingsUsedOnce(Apply(s, m).w)
  {
    match s.open[m.id]
    case MenuRead(mac, row, _, _) => MarkingKeepsSettings(s.w, mac, row);
    case MenuPlaced(mac, _, _, _) => EventKeepsCounts(s.w, Append(s.w, ScriptServed(mac)), ScriptServed(mac));
    case MenuMarked(_, _) =>
    case MenuChosen(mac, row, nextBoot) => ServingKeepsCounts(s.w, mac, row, nextBoot);
  }

  lemma MoveKeepsSettings(s: State, m: Move)
    requires SettingsUsedOnce(s.w) && FindsItsSetting(s, m) && (m.Whole? ==> Plain(m.a))
    ensures SettingsUsedOnce(Apply(s, m).w)
  {
    match m
    case Arrive(_, _) =>
    case Continue(id) =>
      if id in s.open {
        if Fetching(s.open[id]) {
          FetchKeepsSettings(s.w, s.open[id]);
        } else if InMenu(s.open[id]) {
          MenuKeepsSettings(s, m);
        } else {
          AdminKeepsCounts(s.w, s.open[id]);
        }
      }
    case Leave(_) =>
    case Whole(a) => StepKeepsCounts(s.w, a);
  }

  /** Over every interleaving in which each menu that preselects an image finds its node's setting still there, no
      setting is used twice. */
  lemma {:induction false} FreshMenusUseOnce(moves: seq<Move>, k: nat)
    requires k <= |moves| && forall m <- moves :: m.Whole? ==> Plain(m.a)
    requires forall j | 0 <= j < k :: FindsItsSetting(At(moves, j), moves[j])
    ensures SettingsUsedOnce(At(moves, k).w)
    decreases k
  {
    if k > 0 {
      FreshMenusUseOnce(moves, k - 1);
      AtNext(moves, k - 1);
      MoveKeepsSettings(At(moves, k - 1), moves[k - 1]);
    }
  }
}
