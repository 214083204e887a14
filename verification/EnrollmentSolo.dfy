/** A request that no other comes between does what its handler does, read by read and write by write. */
module EnrollmentSolo {
  import opened Models
  import opened Enrollment
  import opened EnrollmentRaces

  /** The state after a request goes on so many times. */
  function Goes(s: State, id: nat, times: nat): State
    decreases times
  {
    if times == 0 then s else Goes(Apply(s, Continue(id)), id, times - 1)
  }

  lemma {:induction false} DoneStays(s: State, id: nat, times: nat)
    requires id !in s.open
    ensures Goes(s, id, times) == s
    decreases times
  {
    if times > 0 {
      assert Apply(s, Continue(id)) == s;
      DoneStays(s, id, times - 1);
    }
  }

  /** One step of a request that stands in the state of s, and then the rest. */
  lemma GoesOn(s: State, id: nat, times: nat, w: World, r: Option<Request>)
    requires id in s.open && times > 0 && NextStep(s.w, s.open[id]) == (w, r)
    ensures var t := State(w, if r.Some? then s.open[id := r.value] else s.open - {id});
            Goes(s, id, times) == Goes(t, id, times - 1)
  {
  }

  lemma Ends(s: State, id: nat, times: nat, w: World)
    requires id in s.open && times > 0 && NextStep(s.w, s.open[id]) == (w, None)
    ensures Goes(s, id, times) == State(w, s.open - {id})
  {
    GoesOn(s, id, times, w, None);
    DoneStays(State(w, s.open - {id}), id, times - 1);
  }

  // ---- Config requests ----

  lemma FetchMarkedEnds(s: State, id: nat, times: nat)
    requires id in s.open && s.open[id].FetchMarked? && times > 0
    ensures var f := s.open[id].f;
            Goes(s, id, times) ==
            State(Append(s.w, ConfigServed(f.mac, f.token, f.uuid, f.at, f.readAt)), s.open - {id})
  {
    var f := s.open[id].f;
    Ends(s, id, times, Append(s.w, ConfigServed(f.mac, f.token, f.uuid, f.at, f.readAt)));
  }

  lemma FetchReadyEnds(s: State, id: nat, times: nat)
    requires id in s.open && s.open[id].FetchReady? && times > 1
    ensures var f := s.open[id].f;
            Goes(s, id, times) ==
            State(Append(MarkInstalling(s.w, f.mac, f.row), ConfigServed(f.mac, f.token, f.uuid, f.at, f.readAt)),
                  s.open - {id})
  {
    var f := s.open[id].f;
    var t := State(MarkInstalling(s.w, f.mac, f.row), s.open[id := FetchMarked(f)]);
    GoesOn(s, id, times, t.w, Some(FetchMarked(f)));
    FetchMarkedEnds(t, id, times - 1);
    assert t.open - {id} == s.open - {id};
  }

  lemma FetchPlacedEnds(s: State, id: nat, times: nat)
    requires id in s.open && s.open[id].FetchPlaced? && times > 2
    ensures var r := s.open[id];
            Goes(s, id, times) ==
            State(if r.image in s.w.nodeImages && r.env.provider && r.env.renders
                  then Append(MarkInstalling(s.w, r.f.mac, r.f.row),
                              ConfigServed(r.f.mac, r.f.token, r.f.uuid, r.f.at, r.f.readAt))
                  else s.w, s.open - {id})
  {
    var r := s.open[id];
    if r.image in s.w.nodeImages && r.env.provider && r.env.renders {
      var t := s.(open := s.open[id := FetchReady(r.f)]);
      GoesOn(s, id, times, s.w, Some(FetchReady(r.f)));
      FetchReadyEnds(t, id, times - 1);
      assert t.open - {id} == s.open - {id};
    } else {
      Ends(s, id, times, s.w);
    }
  }

  lemma FetchKnownEnds(s: State, id: nat, times: nat)
    requires id in s.open && s.open[id].FetchKnown? && times > 3
    ensures var r := s.open[id];
            Goes(s, id, times) ==
            State(if HasNodeImage(s.w, r.f.row) && r.env.provider && r.env.renders
                  then Append(MarkInstalling(s.w, r.f.mac, r.f.row),
                              ConfigServed(r.f.mac, r.f.token, r.f.uuid, r.f.at, r.f.readAt))
                  else s.w, s.open - {id})
  {
    var r := s.open[id];
    var image := ImageNamed(s.w, r.f.row);
    if image.Some? {
      var t := s.(open := s.open[id := FetchPlaced(r.f, r.env, image.value)]);
      GoesOn(s, id, times, s.w, Some(FetchPlaced(r.f, r.env, image.value)));
      FetchPlacedEnds(t, id, times - 1);
      assert t.open - {id} == s.open - {id};
    } else {
      Ends(s, id, times, s.w);
    }
  }

  lemma FetchAcceptedEnds(s: State, id: nat)
    requires id in s.open && s.open[id].FetchAccepted?
    ensures var r := s.open[id];
            Goes(s, id, 5) ==
            State(if CanRender(s.w, r.f.mac, r.f.row, r.f.uuid, r.env)
                  then Append(MarkInstalling(s.w, r.f.mac, r.f.row),
                              ConfigServed(r.f.mac, r.f.token, r.f.uuid, r.f.at, r.f.readAt))
                  else s.w, s.open - {id})
  {
    var r := s.open[id];
    if r.f.mac in s.w.inventory && !ValidateUUID(s.w.inventory[r.f.mac], r.f.uuid, r.env.fold) {
      Ends(s, id, 5, s.w);
    } else {
      var t := s.(open := s.open[id := FetchKnown(r.f, r.env)]);
      GoesOn(s, id, 5, s.w, Some(FetchKnown(r.f, r.env)));
      FetchKnownEnds(t, id, 4);
      assert t.open - {id} == s.open - {id};
    }
  }

  // ---- Boot requests ----

  lemma MenuMarkedEnds(s: State, id: nat, times: nat)
    requires id in s.open && s.open[id].MenuMarked? && times > 1
    ensures var r := s.open[id];
            Goes(s, id, times) == State(ServeMenu(s.w, r.mac, r.row, NextBootID(s.w, r.row)), s.open - {id})
  {
    var r := s.open[id];
    var next := MenuChosen(r.mac, r.row, NextBootID(s.w, r.row));
    var t := s.(open := s.open[id := next]);
    GoesOn(s, id, times, s.w, Some(next));
    Ends(t, id, times - 1, ServeMenu(s.w, r.mac, r.row, next.nextBoot));
    assert t.open - {id} == s.open - {id};
  }

  lemma MenuPlacedEnds(s: State, id: nat, times: nat)
    requires id in s.open && s.open[id].MenuPlaced? && times > 2
    ensures var r := s.open[id];
            Goes(s, id, times) ==
            State(if r.image in s.w.nodeImages && s.w.nodeImages[r.image].downloaded && r.env.provider && r.env.renders
                  then Append(s.w, ScriptServed(r.mac))
                  else ServeMenu(s.w, r.mac, r.row, NextBootID(s.w, r.row)), s.open - {id})
  {
    var r := s.open[id];
    if r.image in s.w.nodeImages && s.w.nodeImages[r.image].downloaded && r.env.provider && r.env.renders {
      Ends(s, id, times, Append(s.w, ScriptServed(r.mac)));
    } else {
      var t := s.(open := s.open[id := MenuMarked(r.mac, r.row)]);
      GoesOn(s, id, times, s.w, Some(MenuMarked(r.mac, r.row)));
      MenuMarkedEnds(t, id, times - 1);
      assert t.open - {id} == s.open - {id};
    }
  }

  lemma MenuReadEnds(s: State, id: nat)
    requires id in s.open && s.open[id].MenuRead?
    ensures var r := s.open[id];
            Goes(s, id, 5) ==
            State(if r.row.enrollmentState == EnrollmentState.Approved && CanProvision(s.w, r.row, r.now, r.env)
                  then Append(s.w, ScriptServed(r.mac))
                  else ServeMenu(MarkInstalled(s.w, r.mac, r.row), r.mac, r.row, NextBootID(s.w, r.row)),
                  s.open - {id})
  {
    var r := s.open[id];
    var w, next := MarkInstalled(s.w, r.mac, r.row), MenuMarked(r.mac, r.row);
    assert w.images == s.w.images;
    var image := ImageNamed(s.w, r.row);
    if r.row.enrollmentState == EnrollmentState.Approved && image.Some?
       && ValidateToken(Some(r.row), r.row.enrollmentToken, r.now).None? {
      next := MenuPlaced(r.mac, r.row, r.env, image.value);
      GoesOn(s, id, 5, s.w, Some(next));
      MenuPlacedEnds(s.(open := s.open[id := next]), id, 4);
    } else {
      GoesOn(s, id, 5, w, Some(next));
      MenuMarkedEnds(State(w, s.open[id := next]), id, 4);
    }
    assert s.open[id := next] - {id} == s.open - {id};
  }

  // ---- The administrator's requests ----

  lemma AdminEnds(s: State, id: nat, a: Action)
    requires a.Assign? || a.Reinstall? || a.Unassign? || a.MarkNodeInstalled? || a.RemoveClusterAction?
    requires FirstRead(s.w, a).Some? && id in s.open && s.open[id] == FirstRead(s.w, a).value
    ensures Goes(s, id, 5) == State(Step(s.w, a), s.open - {id})
  {
    var r := s.open[id];
    if a.Assign? {
      AssignEnds(s, id, a);
    } else if a.RemoveClusterAction? {
      var w, next := DetachNodes(s.w, a.id), DeleteClusterDetached(a.id);
      GoesOn(s, id, 5, w, Some(next));
      Ends(State(w, s.open[id := next]), id, 4, RemoveCluster(w, a.id));
      assert s.open[id := next] - {id} == s.open - {id};
    } else {
      Ends(s, id, 5, Step(s.w, a));
    }
  }

  lemma AssignEnds(s: State, id: nat, a: Action)
    requires a.Assign? && FirstRead(s.w, a).Some? && id in s.open && s.open[id] == FirstRead(s.w, a).value
    ensures Goes(s, id, 5) == State(Step(s.w, a), s.open - {id})
  {
    var w := CreateClient(s.w, NewClient(a.mac));
    var next := AssignReady(a.mac, a.cluster, a.role, a.disk, a.patch, a.token, a.now);
    GoesOn(s, id, 5, w, Some(next));
    Ends(State(w, s.open[id := next]), id, 4, Step(s.w, a));
    assert s.open[id := next] - {id} == s.open - {id};
  }

  /** Any request with more than one step, if it runs through with nothing in between, leaves what its handler leaves.
      A boot request of a node without a row reads nothing more and is not followed. */
  lemma UndisturbedIsAtomic(s: State, id: nat, a: Action)
    requires id !in s.open && !SingleWrite(a) && (a.BootMenu? ==> a.mac in s.w.clients)
    ensures Goes(Apply(s, Arrive(id, a)), id, 5) == State(Step(s.w, a), s.open)
  {
    var r, t := FirstRead(s.w, a), Apply(s, Arrive(id, a));
    if r.Some? {
      assert t.open - {id} == s.open;
      if a.FetchConfig? {
        FetchAcceptedEnds(t, id);
      } else if a.BootMenu? {
        MenuReadEnds(t, id);
      } else {
        AdminEnds(t, id, a);
      }
    } else {
      DoneStays(s, id, 5);
    }
  }

  /** A request with a single write is its handler. */
  lemma SingleIsAtomic(s: State, a: Action)
    requires SingleWrite(a)
    ensures Apply(s, Whole(a)) == State(Step(s.w, a), s.open)
  {
  }
}
