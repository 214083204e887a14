/** The columns of a client row that an assignment fills: what each write leaves in each of them, and how long the
    assigned role, disk and patch last. */
module EnrollmentColumns {
  import opened Models
  import opened Enrollment

  /** The row of a node after an assignment, column by column, where it had the row c before. */
  predicate AssignedFrom(c: Client, d: Client, cluster: nat, role: string, disk: string, patch: string, token: string,
                         now: int) {
    && d.enrollmentState == EnrollmentState.Approved && d.clusterID == Some(cluster)
    && d.clusterRole == role && d.installDisk == disk && d.configPatch == patch && d.enrollmentToken == token
    && d.tokenExpiresAt == Some(now + 86_400_000_000_000) && d.approvedAt == Some(now) && d.isStatic
    && d.macAddress == c.macAddress && d.name == c.name && d.nextBootImage == c.nextBootImage
  }

  /** A row taken out of its cluster. */
  predicate DetachedFrom(c: Client, d: Client) {
    && d.enrollmentState == Unmanaged && d.clusterID == None && d.clusterRole == "" && d.installDisk == ""
    && d.configPatch == "" && d.enrollmentToken == "" && d.tokenExpiresAt == None && d.approvedAt == None
    && d.macAddress == c.macAddress && d.name == c.name && d.isStatic == c.isStatic
    && d.nextBootImage == c.nextBootImage
  }

  /** A node that an administrator creates or a device reports has nothing set but its address. */
  predicate Untouched(c: Client, mac: string) {
    && c.macAddress == mac && c.name == "" && c.enrollmentState == Unmanaged && c.clusterID == None
    && c.clusterRole == "" && c.installDisk == "" && c.configPatch == "" && c.enrollmentToken == ""
    && c.tokenExpiresAt == None && c.approvedAt == None && !c.isStatic && c.nextBootImage == ""
  }

  // ---- Each write, column by column ----

  lemma AssigningFills(w: World, mac: string, cluster: nat, role: string, disk: string, patch: string, token: string,
                       expires: int, now: int)
    requires mac in w.clients
    ensures var v := AssignNodeToCluster(w, mac, cluster, role, disk, patch, token, expires, now);
            && v.clients.Keys == w.clients.Keys && (forall m <- w.clients | m != mac :: v.clients[m] == w.clients[m])
            && (expires == now + 86_400_000_000_000 ==>
                  AssignedFrom(w.clients[mac], v.clients[mac], cluster, role, disk, patch, token, now))
            && v.clients[mac].tokenExpiresAt == Some(expires)
  {
  }

  /** A state write leaves all but the state; an installed, rejected or unmanaged node loses token and deadline too. */
  lemma StateFills(w: World, mac: string, state: EnrollmentState)
    requires mac in w.clients
    ensures var c, v := w.clients[mac], SetClientEnrollmentState(w, mac, state);
            && v.clients.Keys == w.clients.Keys && (forall m <- w.clients | m != mac :: v.clients[m] == w.clients[m])
            && v.clients[mac].enrollmentState == state
            && (if state in {Unmanaged, Installed, Rejected}
                then v.clients[mac].enrollmentToken == "" && v.clients[mac].tokenExpiresAt == None
                else v.clients[mac].enrollmentToken == c.enrollmentToken &&
                     v.clients[mac].tokenExpiresAt == c.tokenExpiresAt)
            && var d := v.clients[mac];
               && d.clusterID == c.clusterID && d.clusterRole == c.clusterRole && d.installDisk == c.installDisk
               && d.configPatch == c.configPatch && d.approvedAt == c.approvedAt && d.isStatic == c.isStatic
               && d.macAddress == c.macAddress && d.name == c.name && d.nextBootImage == c.nextBootImage
  {
  }

  /** An assignment fills the row of the node, or of a new node, and no other. */
  lemma AssignFills(w: World, mac: string, cluster: nat, role: string, disk: string, patch: string, token: string,
                    now: int)
    requires mac != "" && role in [CONTROL_PLANE, WORKER] && cluster in w.clusters
    ensures var v := AssignNode(w, mac, cluster, role, disk, patch, token, now);
            && v.clients.Keys == w.clients.Keys + {mac}
            && (forall m <- w.clients | m != mac :: v.clients[m] == w.clients[m])
            && exists c ::
                 && (if mac in w.clients then c == w.clients[mac] else Untouched(c, mac))
                 && AssignedFrom(c, v.clients[mac], cluster, role, disk, patch, token, now)
  {
    var u := CreateClient(w, NewClient(mac));
    AssigningFills(u, mac, cluster, role, disk, patch, token, now + TOKEN_TTL, now);
    assert mac !in w.clients ==> Untouched(u.clients[mac], mac);
  }

  /** A reinstall opens the same assignment anew. */
  lemma ReinstallRefills(w: World, mac: string, token: string, now: int)
    requires mac in w.clients && w.clients[mac].clusterID.Some?
    ensures var c, v := w.clients[mac], ReinstallNode(w, mac, token, now);
            && mac in v.clients
            && AssignedFrom(c, v.clients[mac], c.clusterID.value, c.clusterRole, c.installDisk, c.configPatch, token,
                            now)
  {
    var c := w.clients[mac];
    AssigningFills(w, mac, c.clusterID.value, c.clusterRole, c.installDisk, c.configPatch, token, now + TOKEN_TTL, now);
  }

  /** Unassigning a node, or deleting its cluster, empties the enrolment columns of its row. */
  lemma DetachingEmpties(w: World, mac: string, id: nat)
    requires mac in w.clients
    ensures DetachedFrom(w.clients[mac], ResetClientEnrollment(w, mac).clients[mac])
    ensures var v := DeleteCluster(w, id);
            && v.clients.Keys == w.clients.Keys
            && (id in w.clusters && w.clients[mac].clusterID == Some(id) ==>
                  DetachedFrom(w.clients[mac], v.clients[mac]))
            && (id !in w.clusters || w.clients[mac].clusterID != Some(id) ==> v.clients[mac] == w.clients[mac])
            && v.clusters == map k | k in w.clusters && k != id :: w.clusters[k]
  {
  }

  // ---- How long an assignment lasts ----

  /** The node's cluster, role, disk and patch. */
  predicate Holds(w: World, mac: string, cluster: nat, role: string, disk: string, patch: string) {
    && mac in w.clients && w.clients[mac].clusterID == Some(cluster) && w.clients[mac].clusterRole == role
    && w.clients[mac].installDisk == disk && w.clients[mac].configPatch == patch
  }

  /** Neither assigns the node again nor takes it out of this cluster. */
  predicate LeavesAssigned(a: Action, mac: string, cluster: nat) {
    match a
    case Assign(m, _, _, _, _, _, _) => m != mac
    case Unassign(m) => m != mac
    case RemoveClient(m) => m != mac
    case RemoveClusterAction(id) => id != cluster
    case _ => true
  }

  lemma MenuHolds(w: World, m: string, now: int, env: Env, mac: string, cluster: nat, role: string, disk: string,
                  patch: string)
    requires Holds(w, mac, cluster, role, disk, patch)
    ensures Holds(HandleIPXEMenu(w, m, now, env), mac, cluster, role, disk, patch)
  {
    if m in w.clients {
      MarkHolds(w, m, w.clients[m], mac, cluster, role, disk, patch);
      ServeHolds(MarkInstalled(w, m, w.clients[m]), m, w.clients[m], NextBootID(w, w.clients[m]), mac, cluster, role,
                 disk, patch);
    }
  }

  lemma MarkHolds(w: World, m: string, row: Client, mac: string, cluster: nat, role: string, disk: string,
                  patch: string)
    requires Holds(w, mac, cluster, role, disk, patch)
    ensures Holds(MarkInstalled(w, m, row), mac, cluster, role, disk, patch)
  {
  }

  lemma ServeHolds(w: World, m: string, row: Client, image: nat, mac: string, cluster: nat, role: string, disk: string,
                   patch: string)
    requires Holds(w, mac, cluster, role, disk, patch)
    ensures Holds(ServeMenu(w, m, row, image), mac, cluster, role, disk, patch)
  {
  }

  lemma AssignElsewhereHolds(w: World, a: Action, mac: string, cluster: nat, role: string, disk: string, patch: string)
    requires Holds(w, mac, cluster, role, disk, patch) && a.Assign? && a.mac != mac
    ensures Holds(Step(w, a), mac, cluster, role, disk, patch)
  {
    assert Holds(CreateClient(w, NewClient(a.mac)), mac, cluster, role, disk, patch);
  }

  lemma FetchHolds(w: World, m: string, token: string, uuid: string, now: int, env: Env, mac: string, cluster: nat,
                   role: string, disk: string, patch: string)
    requires Holds(w, mac, cluster, role, disk, patch)
    ensures Holds(HandleMachineConfig(w, m, token, uuid, now, env), mac, cluster, role, disk, patch)
  {
  }

  lemma OtherStepHolds(w: World, a: Action, mac: string, cluster: nat, role: string, disk: string, patch: string)
    requires Holds(w, mac, cluster, role, disk, patch) && LeavesAssigned(a, mac, cluster)
    requires !a.Assign? && !a.BootMenu? && !a.RemoveClusterAction? && !a.FetchConfig?
    ensures Holds(Step(w, a), mac, cluster, role, disk, patch)
  {
  }

  lemma StepHolds(w: World, a: Action, mac: string, cluster: nat, role: string, disk: string, patch: string)
    requires Holds(w, mac, cluster, role, disk, patch) && LeavesAssigned(a, mac, cluster)
    ensures Holds(Step(w, a), mac, cluster, role, disk, patch)
  {
    match a
    case Assign(_, _, _, _, _, _, _) => AssignElsewhereHolds(w, a, mac, cluster, role, disk, patch);
    case BootMenu(m, now, env) => MenuHolds(w, m, now, env, mac, cluster, role, disk, patch);
    case FetchConfig(m, token, uuid, now, env) =>
      FetchHolds(w, m, token, uuid, now, env, mac, cluster, role, disk, patch);
    case RemoveClusterAction(id) => DetachingEmpties(w, mac, id);
    case _ => OtherStepHolds(w, a, mac, cluster, role, disk, patch);
  }

  lemma {:induction false} RunHolds(w: World, actions: seq<Action>, mac: string, cluster: nat, role: string,
                                    disk: string, patch: string)
    requires Holds(w, mac, cluster, role, disk, patch) && forall a <- actions :: LeavesAssigned(a, mac, cluster)
    ensures Holds(Run(w, actions), mac, cluster, role, disk, patch)
    decreases |actions|
  {
    if actions != [] {
      var front, a := actions[..|actions| - 1], actions[|actions| - 1];
      assert a in actions && forall x <- front :: x in actions;
      RunHolds(w, front, mac, cluster, role, disk, patch);
      StepHolds(Run(w, front), a, mac, cluster, role, disk, patch);
    }
  }

  /** Over every run, through marks, menus, reinstalls and what happens to other nodes and clusters, a node keeps the
      cluster, role, disk and patch of its latest assignment until it is taken out of that cluster. */
  lemma AssignmentLasts(w: World, mac: string, cluster: nat, role: string, disk: string, patch: string, token: string,
                        now: int, actions: seq<Action>)
    requires mac != "" && role in [CONTROL_PLANE, WORKER] && cluster in w.clusters
    requires forall a <- actions :: LeavesAssigned(a, mac, cluster)
    ensures var v := Run(AssignNode(w, mac, cluster, role, disk, patch, token, now), actions);
            && mac in v.clients && v.clients[mac].clusterID == Some(cluster) && v.clients[mac].clusterRole == role
            && v.clients[mac].installDisk == disk && v.clients[mac].configPatch == patch
  {
    AssignFills(w, mac, cluster, role, disk, patch, token, now);
    RunHolds(AssignNode(w, mac, cluster, role, disk, patch, token, now), actions, mac, cluster, role, disk, patch);
  }
}
