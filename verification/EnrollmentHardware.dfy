/** The checks of a config request: which tokens and which hardware identifiers it accepts, and that over every run a
    config goes only to the machine whose identifier was recorded for its node. */
module EnrollmentHardware {
  import opened Models
  import opened Enrollment

  /** A token passes exactly for a node that is approved or installing and holds it, up to its deadline; a node in
      another state is not approved whatever it presents, and only the right token is ever told to have expired. */
  lemma TokenPassesIff(c: Client, token: string, now: int)
    ensures ValidateToken(Some(c), token, now).None? <==>
            && c.enrollmentState in {EnrollmentState.Approved, Installing} && token != "" && c.enrollmentToken == token
            && exists expires :: c.tokenExpiresAt == Some(expires) && now <= expires
    ensures ValidateToken(Some(c), token, now) == Some(NotApproved) <==>
            c.enrollmentState !in {EnrollmentState.Approved, Installing}
    ensures ValidateToken(Some(c), token, now) == Some(TokenExpired) ==> token != "" && c.enrollmentToken == token
    ensures ValidateToken(None, token, now) == Some(NotApproved)
  {
    if c.tokenExpiresAt.Some? {
      assert c.tokenExpiresAt == Some(c.tokenExpiresAt.value);
    }
  }

  predicate Spaces(s: string) {
    forall i | 0 <= i < |s| :: Space(s[i])
  }

  /** s is a with spaces around it, and a neither starts nor ends with one. */
  predicate Padded(s: string, left: string, a: string, right: string) {
    && s == left + a + right && Spaces(left) && Spaces(right)
    && (a != "" ==> !Space(a[0]) && !Space(a[|a| - 1]))
  }

  lemma {:induction false} LeftGoes(left: string, rest: string)
    requires Spaces(left)
    ensures TrimSpace(left + rest) == TrimSpace(rest)
    decreases |left|
  {
    if left == "" {
      assert left + rest == rest;
    } else {
      assert (left + rest)[0] == left[0] && (left + rest)[1..] == left[1..] + rest;
      LeftGoes(left[1..], rest);
    }
  }

  lemma LastGoes(s: string, c: char)
    requires s != "" && !Space(s[0]) && Space(c)
    ensures TrimSpace(s + [c]) == TrimSpace(s)
  {
    assert (s + [c])[0] == s[0] && (s + [c])[..|s|] == s;
  }

  lemma {:induction false} RightGoes(a: string, right: string)
    requires Spaces(right) && a != "" && !Space(a[0])
    ensures TrimSpace(a + right) == TrimSpace(a)
    decreases |right|
  {
    if right == "" {
      assert a + right == a;
    } else {
      var n := |right| - 1;
      assert a + right == a + right[..n] + [right[n]] && (a + right[..n])[0] == a[0];
      LastGoes(a + right[..n], right[n]);
      RightGoes(a, right[..n]);
    }
  }

  lemma PaddedIsTrimmed(s: string, left: string, a: string, right: string)
    requires Padded(s, left, a, right)
    ensures TrimSpace(s) == a
  {
    if a == "" {
      assert s == (left + right) + "";
      LeftGoes(left + right, "");
    } else {
      assert s == left + (a + right);
      LeftGoes(left, a + right);
      RightGoes(a, right);
    }
  }

  lemma PadLeft(c: char, s: string, left: string, a: string, right: string)
    requires Padded(s, left, a, right) && Space(c)
    ensures Padded([c] + s, [c] + left, a, right)
  {
    assert [c] + (left + a + right) == [c] + left + a + right;
  }

  lemma PadRight(c: char, s: string, left: string, a: string, right: string)
    requires Padded(s, left, a, right) && Space(c)
    ensures Padded(s + [c], left, a, right + [c])
  {
    assert left + a + right + [c] == left + a + (right + [c]);
  }

  /** Every string is padded in some way. */
  lemma {:induction false} Paddings(s: string) returns (left: string, a: string, right: string)
    ensures Padded(s, left, a, right)
    decreases |s|
  {
    var n := |s| - 1;
    if s != "" && Space(s[0]) {
      left, a, right := Paddings(s[1..]);
      PadLeft(s[0], s[1..], left, a, right);
      assert [s[0]] + s[1..] == s;
      left := [s[0]] + left;
    } else if s != "" && Space(s[n]) {
      left, a, right := Paddings(s[..n]);
      PadRight(s[n], s[..n], left, a, right);
      assert s[..n] + [s[n]] == s;
      right := right + [s[n]];
    } else {
      left, a, right := "", s, "";
    }
  }

  /** Whatever spaces are around them, a recorded identifier accepts the presented one exactly when they have equal
      length and every two characters fold to the same; an empty one accepts all. */
  lemma UUIDAcceptsIff(expected: string, presented: string, left: string, a: string, right: string, before: string,
                       b: string, behind: string, fold: char -> char)
    requires Padded(expected, left, a, right) && Padded(presented, before, b, behind)
    ensures ValidateUUID(expected, presented, fold) <==>
            expected == "" || (|a| == |b| && forall i | 0 <= i < |a| :: fold(a[i]) == fold(b[i]))
  {
    PaddedIsTrimmed(expected, left, a, right);
    PaddedIsTrimmed(presented, before, b, behind);
  }

  /** The identifier last recorded for a node, empty if none was. */
  function LastRecorded(actions: seq<Action>, mac: string): string
    decreases |actions|
  {
    if actions == [] then ""
    else
      var a := actions[|actions| - 1];
      if a.Inventory? && a.mac == mac && mac !in ["", "${net0/mac}"] then a.uuid
      else LastRecorded(actions[..|actions| - 1], mac)
  }

  lemma MenuRecordsNone(w: World, mac: string, now: int, env: Env)
    ensures HandleIPXEMenu(w, mac, now, env).inventory == w.inventory
  {
    if mac in w.clients {
      assert MarkInstalled(w, mac, w.clients[mac]).inventory == w.inventory;
    }
  }

  lemma FetchRecordsNone(w: World, mac: string, token: string, uuid: string, now: int, env: Env)
    ensures HandleMachineConfig(w, mac, token, uuid, now, env).inventory == w.inventory
  {
  }

  lemma OthersRecordNone(w: World, a: Action)
    requires !a.Inventory? && !a.BootMenu? && !a.FetchConfig?
    ensures Step(w, a).inventory == w.inventory
  {
  }

  lemma StepRecords(w: World, a: Action, mac: string)
    ensures var v := Step(w, a);
            if a.Inventory? && a.mac == mac && mac !in ["", "${net0/mac}"]
            then mac in v.inventory && v.inventory[mac] == a.uuid
            else (mac in v.inventory <==> mac in w.inventory) &&
                 (mac in w.inventory ==> v.inventory[mac] == w.inventory[mac])
  {
    if a.BootMenu? {
      MenuRecordsNone(w, a.mac, a.now, a.env);
    } else if a.FetchConfig? {
      FetchRecordsNone(w, a.mac, a.token, a.uuid, a.now, a.env);
    } else if !a.Inventory? {
      OthersRecordNone(w, a);
    }
  }

  lemma {:induction false} RecordedIs(actions: seq<Action>, mac: string)
    ensures var w := Run(EMPTY, actions);
            LastRecorded(actions, mac) == if mac in w.inventory then w.inventory[mac] else ""
    decreases |actions|
  {
    if actions != [] {
      var front, a := actions[..|actions| - 1], actions[|actions| - 1];
      RecordedIs(front, mac);
      StepRecords(Run(EMPTY, front), a, mac);
    }
  }

  /** In every run, a config request that is answered presented the identifier last recorded for its node, if one was:
      the same character for character, but for case and the spaces around. */
  lemma ServedMachinesMatch(actions: seq<Action>, mac: string, token: string, uuid: string, now: int, env: Env)
    ensures var w, v := Run(EMPTY, actions), Run(EMPTY, actions + [FetchConfig(mac, token, uuid, now, env)]);
            Answered(w, v) ==>
              && v.log[|v.log| - 1] == ConfigServed(mac, token, uuid, now, |w.log|)
              && (LastRecorded(actions, mac) != "" ==>
                    exists left, a, right, before, b, behind ::
                      && Padded(LastRecorded(actions, mac), left, a, right) && Padded(uuid, before, b, behind)
                      && |a| == |b| && forall i | 0 <= i < |a| :: env.fold(a[i]) == env.fold(b[i]))
  {
    var w, request := Run(EMPTY, actions), FetchConfig(mac, token, uuid, now, env);
    var v := Run(EMPTY, actions + [request]);
    assert (actions + [request])[..|actions|] == actions && v == HandleMachineConfig(w, mac, token, uuid, now, env);
    RecordedIs(actions, mac);
    var recorded := LastRecorded(actions, mac);
    if recorded != "" && Answered(w, v) {
      AnsweredChecks(w, mac, token, uuid, now, env);
      var left, a, right := Paddings(recorded);
      var before, b, behind := Paddings(uuid);
      UUIDAcceptsIff(recorded, uuid, left, a, right, before, b, behind, env.fold);
    }
  }

  /** A config was the last thing served from w to v. */
  predicate Answered(w: World, v: World) {
    |w.log| < |v.log| && v.log[|v.log| - 1].ConfigServed?
  }

  lemma AnsweredChecks(w: World, mac: string, token: string, uuid: string, now: int, env: Env)
    requires Answered(w, HandleMachineConfig(w, mac, token, uuid, now, env)) && mac in w.inventory
    ensures ValidateUUID(w.inventory[mac], uuid, env.fold)
  {
  }
}
