/** The enrolment protocol of cluster nodes: what each storage write does to a client row, what each handler does
    when it runs undisturbed, and what holds after every run of such handlers. */
module Enrollment {
  import opened Models

  datatype Image = Image(id: nat, enabled: bool)

  /** What happened, in order. Started and Completed are the two webhooks of an installation. */
  datatype Event =
    | TokenStored(mac: string, token: string, expires: int)
    | TokensCleared(macs: set<string>)
    | Created(mac: string)
    | Approved(mac: string)
    | Started(mac: string)
    | Completed(mac: string)
    | ConfigServed(mac: string, token: string, uuid: string, at: int, readAt: nat)
    | ScriptServed(mac: string)
    | NextBootSet(mac: string)
    | MenuServed(mac: string, nextBoot: nat)

  datatype World = World(
    clients: map<string, Client>, clusters: map<nat, Cluster>, nodeImages: map<nat, NodeImage>,
    images: map<string, Image>, inventory: map<string, string>, log: seq<Event>)

  // ---- Token checks ----

  datatype Denial = NotApproved | TokenInvalid | TokenExpired

  function ValidateToken(client: Option<Client>, token: string, now: int): Option<Denial> {
    if client.None? then Some(NotApproved)
    else if client.value.enrollmentState != EnrollmentState.Approved && client.value.enrollmentState != Installing
    then Some(NotApproved)
    else if client.value.enrollmentToken == "" || token == "" then Some(TokenInvalid)
    else if client.value.enrollmentToken != token then Some(TokenInvalid)
    else if client.value.tokenExpiresAt.None? || now > client.value.tokenExpiresAt.value then Some(TokenExpired)
    else None
  }

  /** fold maps a character to its case-folded form. */
  predicate ValidateUUID(expected: string, presented: string, fold: char -> char) {
    expected == "" ||
    var e, p := TrimSpace(expected), TrimSpace(presented);
    |e| == |p| && forall i | 0 <= i < |e| :: fold(e[i]) == fold(p[i])
  }

  function TrimSpace(s: string): string
    decreases |s|
  {
    if s == "" then s
    else if Space(s[0]) then TrimSpace(s[1..])
    else if Space(s[|s| - 1]) then TrimSpace(s[..|s| - 1])
    else s
  }

  // ---- Storage: one row update each ----

  predicate Holding(s: EnrollmentState) {
    s == EnrollmentState.Approved || s == Installing
  }

  function Append(w: World, e: Event): World {
    w.(log := w.log + [e])
  }

  function AssignNodeToCluster(w: World, mac: string, cluster: nat, role: string, disk: string, patch: string,
                               token: string, expires: int, now: int): World
  {
    if mac !in w.clients then w
    else
      var row := w.clients[mac].(enrollmentState := EnrollmentState.Approved, clusterID := Some(cluster),
                                 clusterRole := role, installDisk := disk, configPatch := patch,
                                 enrollmentToken := token, tokenExpiresAt := Some(expires),
                                 approvedAt := Some(now), isStatic := true);
      Append(w.(clients := w.clients[mac := row]), TokenStored(mac, token, expires))
  }

  function SetClientEnrollmentState(w: World, mac: string, state: EnrollmentState): World {
    if mac !in w.clients then w
    else
      var row := w.clients[mac].(enrollmentState := state);
      if state == Installed || state == Rejected || state == Unmanaged then
        Append(w.(clients := w.clients[mac := row.(enrollmentToken := "", tokenExpiresAt := None)]),
               TokensCleared({mac}))
      else
        w.(clients := w.clients[mac := row])
  }

  function Detached(c: Client): Client {
    c.(enrollmentState := Unmanaged, clusterID := None, clusterRole := "", installDisk := "", configPatch := "",
       enrollmentToken := "", tokenExpiresAt := None, approvedAt := None)
  }

  function ResetClientEnrollment(w: World, mac: string): World {
    if mac !in w.clients then w
    else Append(w.(clients := w.clients[mac := Detached(w.clients[mac])]), TokensCleared({mac}))
  }

  /** First half of deleting a cluster: its nodes are detached. */
  function DetachNodes(w: World, id: nat): World {
    var nodes := set mac | mac in w.clients && w.clients[mac].clusterID == Some(id);
    Append(w.(clients := map mac | mac in w.clients ::
                if mac in nodes then Detached(w.clients[mac]) else w.clients[mac]), TokensCleared(nodes))
  }

  /** Second half: the cluster row goes. */
  function RemoveCluster(w: World, id: nat): World {
    w.(clusters := w.clusters - {id})
  }

  function CreateClient(w: World, c: Client): World {
    if c.macAddress in w.clients then w
    else Append(w.(clients := w.clients[c.macAddress := c]), Created(c.macAddress))
  }

  function DeleteClient(w: World, mac: string): World {
    if mac !in w.clients then w
    else Append(w.(clients := w.clients - {mac}), TokensCleared({mac}))
  }

  function SetNextBootImage(w: World, mac: string, filename: string): World {
    if mac !in w.clients then w
    else
      var v := w.(clients := w.clients[mac := w.clients[mac].(nextBootImage := filename)]);
      if filename == "" then v else Append(v, NextBootSet(mac))
  }

  function NewClient(mac: string): Client {
    Client(mac, "", Unmanaged, None, "", "", "", "", None, None, false, "")
  }

  // ---- Handlers, run without interruption ----

  /** The parts of the environment a handler meets: does the provider exist, does rendering succeed, case folding. */
  datatype Env = Env(provider: bool, renders: bool, fold: char -> char)

  const TOKEN_TTL := 24 * 60 * 60 * 1_000_000_000

  predicate HasNodeImage(w: World, c: Client) {
    && c.clusterID.Some? && c.clusterID.value in w.clusters
    && var cluster := w.clusters[c.clusterID.value];
       cluster.nodeImageID.Some? && cluster.nodeImageID.value in w.nodeImages
  }

  /** provisionInstallScriptFor: is there an installation to boot into? */
  predicate CanProvision(w: World, c: Client, now: int, env: Env) {
    && ValidateToken(Some(c), c.enrollmentToken, now).None?
    && HasNodeImage(w, c)
    && w.nodeImages[w.clusters[c.clusterID.value].nodeImageID.value].downloaded
    && env.provider && env.renders
  }

  /** The checks of handleMachineConfig after the token has been accepted. */
  predicate CanRender(w: World, mac: string, c: Client, uuid: string, env: Env) {
    && (mac in w.inventory ==> ValidateUUID(w.inventory[mac], uuid, env.fold))
    && HasNodeImage(w, c)
    && env.provider && env.renders
  }

  /** The state write of handleMachineConfig and its webhook, for the client row c read earlier. */
  function MarkInstalling(w: World, mac: string, c: Client): World {
    if c.enrollmentState == EnrollmentState.Approved && mac in w.clients
    then Append(SetClientEnrollmentState(w, mac, Installing), Started(mac))
    else w
  }

  function HandleMachineConfig(w: World, mac: string, token: string, uuid: string, now: int, env: Env): World {
    if mac !in w.clients then w
    else
      var c := w.clients[mac];
      if ValidateToken(Some(c), token, now).Some? || !CanRender(w, mac, c, uuid, env) then w
      else Append(MarkInstalling(w, mac, c), ConfigServed(mac, token, uuid, now, |w.log|))
  }

  /** The state write of the boot menu for a node that was installing when it was read. */
  function MarkInstalled(w: World, mac: string, c: Client): World {
    if c.enrollmentState == Installing && mac in w.clients
    then Append(SetClientEnrollmentState(w, mac, Installed), Completed(mac))
    else w
  }

  function NextBootID(w: World, c: Client): nat {
    if c.nextBootImage in w.images && w.images[c.nextBootImage].enabled then w.images[c.nextBootImage].id else 0
  }

  /** The next-boot step of the menu, for the row c read earlier and the image its setting named: the setting is used
      up, bootable or not. */
  function ServeMenu(w: World, mac: string, c: Client, image: nat): World {
    if c.nextBootImage == "" then Append(w, MenuServed(mac, 0))
    else Append(SetNextBootImage(w, mac, ""), MenuServed(mac, image))
  }

  function HandleIPXEMenu(w: World, mac: string, now: int, env: Env): World {
    if mac !in w.clients then Append(w, MenuServed(mac, 0))
    else
      var c := w.clients[mac];
      if c.enrollmentState == EnrollmentState.Approved && CanProvision(w, c, now, env) then Append(w, ScriptServed(mac))
      else ServeMenu(MarkInstalled(w, mac, c), mac, c, NextBootID(w, c))
  }

  function AssignNode(w: World, mac: string, cluster: nat, role: string, disk: string, patch: string, token: string,
                      now: int): World {
    if mac == "" || (role != CONTROL_PLANE && role != WORKER) || cluster !in w.clusters then w
    else
      var v := CreateClient(w, NewClient(mac));
      Append(AssignNodeToCluster(v, mac, cluster, role, disk, patch, token, now + TOKEN_TTL, now), Event.Approved(mac))
  }

  function ReinstallNode(w: World, mac: string, token: string, now: int): World {
    if mac !in w.clients || w.clients[mac].clusterID.None? then w
    else
      var c := w.clients[mac];
      AssignNodeToCluster(w, mac, c.clusterID.value, c.clusterRole, c.installDisk, c.configPatch, token,
                          now + TOKEN_TTL, now)
  }

  function DeleteCluster(w: World, id: nat): World {
    if id !in w.clusters then w else RemoveCluster(DetachNodes(w, id), id)
  }

  /** A request without an address, or with the placeholder that the device did not fill in, saves nothing. */
  predicate NoAddress(mac: string) {
    mac in ["", "${net0/mac}"]
  }

  function SaveInventory(w: World, mac: string, uuid: string): World {
    if NoAddress(mac) then w
    else
      var v := CreateClient(w, NewClient(mac));
      v.(inventory := v.inventory[mac := uuid])
  }

  datatype Action =
    | Assign(mac: string, cluster: nat, role: string, disk: string, patch: string, token: string, now: int)
    | Reinstall(mac: string, token: string, now: int)
    | Unassign(mac: string)
    | MarkNodeInstalled(mac: string)
    | RemoveClusterAction(id: nat)
    | AddClient(client: Client)
    | RemoveClient(mac: string)
    | SetNextBoot(mac: string, filename: string)
    | PutCluster(id: nat, row: Cluster)
    | EditImages(images: map<string, Image>, nodeImages: map<nat, NodeImage>)
    | Inventory(mac: string, uuid: string)
    | FetchConfig(mac: string, token: string, uuid: string, now: int, env: Env)
    | BootMenu(mac: string, now: int, env: Env)

  /** Generated tokens are not empty; clients are created without a token. */
  predicate Legal(a: Action) {
    match a
    case Assign(_, _, _, _, _, token, _) => token != ""
    case Reinstall(_, token, _) => token != ""
    case AddClient(c) => c.enrollmentToken == ""
    case _ => true
  }

  /** A client added without enrolment fields. */
  predicate Plain(a: Action) {
    a.AddClient? ==> !Holding(a.client.enrollmentState) && a.client.clusterID.None?
  }

  function Step(w: World, a: Action): World {
    match a
    case Assign(mac, cluster, role, disk, patch, token, now) =>
      AssignNode(w, mac, cluster, role, disk, patch, token, now)
    case Reinstall(mac, token, now) => ReinstallNode(w, mac, token, now)
    case Unassign(mac) => ResetClientEnrollment(w, mac)
    case MarkNodeInstalled(mac) => SetClientEnrollmentState(w, mac, Installed)
    case RemoveClusterAction(id) => DeleteCluster(w, id)
    case AddClient(client) => CreateClient(w, client)
    case RemoveClient(mac) => DeleteClient(w, mac)
    case SetNextBoot(mac, filename) => SetNextBootImage(w, mac, filename)
    case PutCluster(id, row) => w.(clusters := w.clusters[id := row])
    case EditImages(images, nodeImages) => w.(images := images, nodeImages := nodeImages)
    case Inventory(mac, uuid) => SaveInventory(w, mac, uuid)
    case FetchConfig(mac, token, uuid, now, env) => HandleMachineConfig(w, mac, token, uuid, now, env)
    case BootMenu(mac, now, env) => HandleIPXEMenu(w, mac, now, env)
  }

  function Run(w: World, actions: seq<Action>): World
    decreases |actions|
  {
    if actions == [] then w else Step(Run(w, actions[..|actions| - 1]), actions[|actions| - 1])
  }

  const EMPTY := World(map[], map[], map[], map[], map[], [])

  // ---- Rows of the client table ----

  /** A node has a token exactly while an installation is open, and then it has a deadline and a cluster; every
      cluster a row names exists and comes with a role. */
  predicate RowOk(c: Client, clusters: map<nat, Cluster>) {
    && (c.enrollmentToken != "" <==> Holding(c.enrollmentState))
    && (c.enrollmentToken != "" ==> c.clusterID.Some? && c.tokenExpiresAt.Some?)
    && (c.clusterID.Some? ==>
        c.clusterID.value in clusters && (c.clusterRole == CONTROL_PLANE || c.clusterRole == WORKER))
  }

  predicate RowsOk(w: World) {
    forall mac <- w.clients :: RowOk(w.clients[mac], w.clusters)
  }

  lemma AssigningKeepsRows(w: World, mac: string, cluster: nat, role: string, disk: string, patch: string,
                           token: string, expires: int, now: int)
    requires RowsOk(w) && token != "" && cluster in w.clusters && (role == CONTROL_PLANE || role == WORKER)
    ensures RowsOk(AssignNodeToCluster(w, mac, cluster, role, disk, patch, token, expires, now))
  {
  }

  lemma StateKeepsRows(w: World, mac: string, state: EnrollmentState)
    requires RowsOk(w)
    requires Holding(state) ==> mac in w.clients && Holding(w.clients[mac].enrollmentState)
    requires state != Pending
    ensures RowsOk(SetClientEnrollmentState(w, mac, state))
  {
  }

  lemma DeletingClusterKeepsRows(w: World, id: nat)
    requires RowsOk(w)
    ensures RowsOk(DeleteCluster(w, id))
  {
    var v := DeleteCluster(w, id);
    forall mac <- v.clients ensures RowOk(v.clients[mac], v.clusters) {
      assert RowOk(w.clients[mac], w.clusters);
    }
  }

  lemma CreatingKeepsRows(w: World, c: Client)
    requires RowsOk(w) && c.enrollmentToken == "" && !Holding(c.enrollmentState) && c.clusterID.None?
    ensures RowsOk(CreateClient(w, c))
  {
  }

  lemma FetchKeepsRows(w: World, mac: string, token: string, uuid: string, now: int, env: Env)
    requires RowsOk(w)
    ensures RowsOk(HandleMachineConfig(w, mac, token, uuid, now, env))
  {
    if mac in w.clients && w.clients[mac].enrollmentState == EnrollmentState.Approved {
      StateKeepsRows(w, mac, Installing);
    }
  }

  lemma MenuKeepsRows(w: World, mac: string, now: int, env: Env)
    requires RowsOk(w)
    ensures RowsOk(HandleIPXEMenu(w, mac, now, env))
  {
    if mac in w.clients {
      StateKeepsRows(w, mac, Installed);
      NextBootKeepsRows(MarkInstalled(w, mac, w.clients[mac]), mac, "");
    }
  }

  lemma NextBootKeepsRows(w: World, mac: string, filename: string)
    requires RowsOk(w)
    ensures RowsOk(SetNextBootImage(w, mac, filename))
  {
  }

  lemma AssignKeepsRows(w: World, mac: string, cluster: nat, role: string, disk: string, patch: string, token: string,
                        now: int)
    requires RowsOk(w) && token != ""
    ensures RowsOk(AssignNode(w, mac, cluster, role, disk, patch, token, now))
  {
    CreatingKeepsRows(w, NewClient(mac));
    if cluster in w.clusters && (role == CONTROL_PLANE || role == WORKER) {
      AssigningKeepsRows(CreateClient(w, NewClient(mac)), mac, cluster, role, disk, patch, token, now + TOKEN_TTL, now);
    }
  }

  lemma ReinstallKeepsRows(w: World, mac: string, token: string, now: int)
    requires RowsOk(w) && token != ""
    ensures RowsOk(ReinstallNode(w, mac, token, now))
  {
    if mac in w.clients && w.clients[mac].clusterID.Some? {
      var c := w.clients[mac];
      assert RowOk(c, w.clusters);
      AssigningKeepsRows(w, mac, c.clusterID.value, c.clusterRole, c.installDisk, c.configPatch, token, now + TOKEN_TTL,
                         now);
    }
  }

  lemma ResettingKeepsRows(w: World, mac: string)
    requires RowsOk(w)
    ensures RowsOk(ResetClientEnrollment(w, mac)) && RowsOk(DeleteClient(w, mac))
  {
  }

  lemma SavingKeepsRows(w: World, mac: string, uuid: string)
    requires RowsOk(w)
    ensures RowsOk(SaveInventory(w, mac, uuid))
  {
    CreatingKeepsRows(w, NewClient(mac));
  }

  lemma EditingKeepsRows(w: World, id: nat, row: Cluster, images: map<string, Image>, nodeImages: map<nat, NodeImage>)
    requires RowsOk(w)
    ensures RowsOk(w.(clusters := w.clusters[id := row])) && RowsOk(w.(images := images, nodeImages := nodeImages))
  {
  }

  lemma StepKeepsRows(w: World, a: Action)
    requires RowsOk(w) && Legal(a) && Plain(a)
    ensures RowsOk(Step(w, a))
  {
    match a
    case Assign(mac, cluster, role, disk, patch, token, now) =>
      AssignKeepsRows(w, mac, cluster, role, disk, patch, token, now);
    case Reinstall(mac, token, now) => ReinstallKeepsRows(w, mac, token, now);
    case Unassign(mac) => ResettingKeepsRows(w, mac);
    case MarkNodeInstalled(mac) => StateKeepsRows(w, mac, Installed);
    case RemoveClusterAction(id) => DeletingClusterKeepsRows(w, id);
    case AddClient(client) => CreatingKeepsRows(w, client);
    case RemoveClient(mac) => ResettingKeepsRows(w, mac);
    case SetNextBoot(mac, filename) => NextBootKeepsRows(w, mac, filename);
    case PutCluster(id, row) => EditingKeepsRows(w, id, row, w.images, w.nodeImages);
    case EditImages(images, nodeImages) => EditingKeepsRows(w, 0, Cluster("", None, "", "", ""), images, nodeImages);
    case Inventory(mac, uuid) => SavingKeepsRows(w, mac, uuid);
    case FetchConfig(mac, token, uuid, now, env) => FetchKeepsRows(w, mac, token, uuid, now, env);
    case BootMenu(mac, now, env) => MenuKeepsRows(w, mac, now, env);
  }

  /** In every run of undisturbed handlers over clients added without enrolment fields. */
  lemma {:induction false} RowsAlwaysOk(actions: seq<Action>)
    requires forall a <- actions :: Legal(a) && Plain(a)
    ensures RowsOk(Run(EMPTY, actions))
    decreases |actions|
  {
    if actions != [] {
      var front, a := actions[..|actions| - 1], actions[|actions| - 1];
      assert forall x <- front :: x in actions;
      RowsAlwaysOk(front);
      StepKeepsRows(Run(EMPTY, front), a);
    }
  }

  /** Adding a client keeps the rows in order exactly if the request does not open an installation by itself and
      does not name a missing cluster or an unknown role. */
  lemma AddingKeepsRowsIff(w: World, c: Client)
    requires RowsOk(w) && c.enrollmentToken == "" && c.macAddress !in w.clients
    ensures RowsOk(Step(w, AddClient(c))) <==>
            !Holding(c.enrollmentState) &&
            (c.clusterID.Some? ==>
             c.clusterID.value in w.clusters && (c.clusterRole == CONTROL_PLANE || c.clusterRole == WORKER))
  {
    var v := Step(w, AddClient(c));
    assert v.clients[c.macAddress] == c;
    forall mac <- v.clients | mac != c.macAddress ensures RowOk(v.clients[mac], v.clusters) {
      assert RowOk(w.clients[mac], w.clusters);
    }
  }

  // ---- Tokens ----

  predicate TokenWrite(e: Event, mac: string) {
    match e
    case TokenStored(m, _, _) => m == mac
    case TokensCleared(macs) => mac in macs
    case Created(m) => m == mac
    case _ => false
  }

  /** The latest write to the token field of mac. */
  function LastWrite(log: seq<Event>, mac: string): Option<Event>
    decreases |log|
  {
    if log == [] then None
    else if TokenWrite(log[|log| - 1], mac) then Some(log[|log| - 1])
    else LastWrite(log[..|log| - 1], mac)
  }

  lemma {:induction false} LastWriteIsLatest(log: seq<Event>, mac: string)
    ensures LastWrite(log, mac).Some? ==>
              exists j | 0 <= j < |log| :: log[j] == LastWrite(log, mac).value && TokenWrite(log[j], mac) &&
                                           forall i | j < i < |log| :: !TokenWrite(log[i], mac)
    ensures LastWrite(log, mac).None? ==> forall i | 0 <= i < |log| :: !TokenWrite(log[i], mac)
    decreases |log|
  {
    if log != [] {
      var n := |log| - 1;
      if TokenWrite(log[n], mac) {
        assert log[n] == LastWrite(log, mac).value;
      } else {
        LastWriteIsLatest(log[..n], mac);
        if LastWrite(log, mac).Some? {
          var j :| 0 <= j < n && log[..n][j] == LastWrite(log[..n], mac).value && TokenWrite(log[..n][j], mac) &&
                   forall i | j < i < n :: !TokenWrite(log[..n][i], mac);
          assert log[j] == LastWrite(log, mac).value;
          assert forall i | j < i < n :: log[..n][i] == log[i];
        } else {
          assert forall i | 0 <= i < n :: log[..n][i] == log[i];
        }
      }
    }
  }

  lemma LastWriteAfter(log: seq<Event>, e: Event, mac: string)
    ensures LastWrite(log + [e], mac) == if TokenWrite(e, mac) then Some(e) else LastWrite(log, mac)
  {
    assert (log + [e])[..|log|] == log;
  }

  /** The token a request presented was the one last stored for the node, and had not expired. */
  predicate Backs(write: Option<Event>, mac: string, token: string, at: int) {
    write.Some? && write.value.TokenStored? && write.value.mac == mac && write.value.token == token &&
      at <= write.value.expires
  }

  predicate Stored(log: seq<Event>, mac: string) {
    LastWrite(log, mac).Some? && LastWrite(log, mac).value.TokenStored?
  }

  /** The row of a node holds just the token that the latest write in the log stored, if that is what it did. */
  predicate TokenLogged(w: World, mac: string) {
    && (mac in w.clients && w.clients[mac].enrollmentToken != "" ==> Stored(w.log, mac))
    && (Stored(w.log, mac) ==>
          mac in w.clients && w.clients[mac].tokenExpiresAt.Some? &&
          LastWrite(w.log, mac).value ==
          TokenStored(mac, w.clients[mac].enrollmentToken, w.clients[mac].tokenExpiresAt.value))
  }

  ghost predicate TokensLogged(w: World) {
    forall mac :: TokenLogged(w, mac)
  }

  /** Each served config was backed when its request read the client row. */
  predicate ConfigsBacked(log: seq<Event>) {
    forall i | 0 <= i < |log| && log[i].ConfigServed? ::
      log[i].readAt <= i && Backs(LastWrite(log[..log[i].readAt], log[i].mac), log[i].mac, log[i].token, log[i].at)
  }

  lemma LogKeepsBacked(log: seq<Event>, e: Event)
    requires ConfigsBacked(log)
    requires e.ConfigServed? ==> e.readAt <= |log| && Backs(LastWrite(log[..e.readAt], e.mac), e.mac, e.token, e.at)
    ensures ConfigsBacked(log + [e])
  {
    var l := log + [e];
    forall i | 0 <= i < |l| && l[i].ConfigServed?
      ensures l[i].readAt <= i && Backs(LastWrite(l[..l[i].readAt], l[i].mac), l[i].mac, l[i].token, l[i].at)
    {
      assert l[i].readAt <= |log|;
      assert l[..l[i].readAt] == log[..l[i].readAt];
    }
  }

  ghost predicate LogOk(w: World) {
    TokensLogged(w) && ConfigsBacked(w.log)
  }

  /** How the token field of mac changes along with event e. */
  predicate TokenFollows(w: World, v: World, e: Event, mac: string) {
    if TokenWrite(e, mac) then
      if e.TokenStored? then
        mac in v.clients && v.clients[mac].enrollmentToken == e.token &&
        v.clients[mac].tokenExpiresAt == Some(e.expires)
      else mac in v.clients ==> v.clients[mac].enrollmentToken == ""
    else
      && (mac in w.clients <==> mac in v.clients)
      && (mac in w.clients ==> SameToken(w.clients[mac], v.clients[mac]))
  }

  predicate SameToken(c: Client, d: Client) {
    c.enrollmentToken == d.enrollmentToken && c.tokenExpiresAt == d.tokenExpiresAt
  }

  /** One more event, not a served config, that agrees with the token fields it leaves behind. */
  lemma EventKeepsLog(w: World, v: World, e: Event)
    requires LogOk(w) && v.log == w.log + [e] && !e.ConfigServed?
    requires forall mac :: TokenFollows(w, v, e, mac)
    ensures LogOk(v)
  {
    LogKeepsBacked(w.log, e);
    TokensFollow(w, v, e);
  }

  lemma TokensFollow(w: World, v: World, e: Event)
    requires TokensLogged(w) && v.log == w.log + [e] && forall mac :: TokenFollows(w, v, e, mac)
    ensures TokensLogged(v)
  {
    forall mac ensures TokenLogged(v, mac) {
      LastWriteAfter(w.log, e, mac);
      assert TokenLogged(w, mac) && TokenFollows(w, v, e, mac);
    }
  }

  /** Without an event, the token fields stay. */
  lemma SameTokensKeepLog(w: World, v: World)
    requires LogOk(w) && v.log == w.log && v.clients.Keys == w.clients.Keys
    requires forall mac <- v.clients :: SameToken(w.clients[mac], v.clients[mac])
    ensures LogOk(v)
  {
    forall mac ensures TokenLogged(v, mac) {
      assert TokenLogged(w, mac);
    }
  }

  lemma StateKeepsLog(w: World, mac: string, state: EnrollmentState)
    requires LogOk(w)
    ensures LogOk(SetClientEnrollmentState(w, mac, state))
  {
    if mac in w.clients && (state == Installed || state == Rejected || state == Unmanaged) {
      EventKeepsLog(w, SetClientEnrollmentState(w, mac, state), TokensCleared({mac}));
    } else {
      SameTokensKeepLog(w, SetClientEnrollmentState(w, mac, state));
    }
  }

  lemma ResettingKeepsLog(w: World, mac: string)
    requires LogOk(w)
    ensures LogOk(ResetClientEnrollment(w, mac))
  {
    if mac in w.clients {
      EventKeepsLog(w, ResetClientEnrollment(w, mac), TokensCleared({mac}));
    }
  }

  lemma CreatingKeepsLog(w: World, c: Client)
    requires LogOk(w) && c.enrollmentToken == ""
    ensures LogOk(CreateClient(w, c))
  {
    if c.macAddress !in w.clients {
      EventKeepsLog(w, CreateClient(w, c), Created(c.macAddress));
    }
  }

  lemma DeletingKeepsLog(w: World, mac: string)
    requires LogOk(w)
    ensures LogOk(DeleteClient(w, mac))
  {
    if mac in w.clients {
      EventKeepsLog(w, DeleteClient(w, mac), TokensCleared({mac}));
    }
  }

  lemma NextBootKeepsLog(w: World, mac: string, filename: string)
    requires LogOk(w)
    ensures LogOk(SetNextBootImage(w, mac, filename))
  {
    if mac in w.clients && filename != "" {
      EventKeepsLog(w, SetNextBootImage(w, mac, filename), NextBootSet(mac));
    } else {
      SameTokensKeepLog(w, SetNextBootImage(w, mac, filename));
    }
  }

  lemma AssigningKeepsLog(w: World, mac: string, cluster: nat, role: string, disk: string, patch: string,
                          token: string, expires: int, now: int)
    requires LogOk(w)
    ensures LogOk(AssignNodeToCluster(w, mac, cluster, role, disk, patch, token, expires, now))
  {
    if mac in w.clients {
      EventKeepsLog(w, AssignNodeToCluster(w, mac, cluster, role, disk, patch, token, expires, now),
                    TokenStored(mac, token, expires));
    }
  }

  lemma DetachingKeepsLog(w: World, id: nat)
    requires LogOk(w)
    ensures LogOk(DetachNodes(w, id))
  {
    var nodes := set mac | mac in w.clients && w.clients[mac].clusterID == Some(id);
    EventKeepsLog(w, DetachNodes(w, id), TokensCleared(nodes));
  }

  lemma DeletingClusterKeepsLog(w: World, id: nat)
    requires LogOk(w)
    ensures LogOk(DeleteCluster(w, id))
  {
    DetachingKeepsLog(w, id);
    SameTokensKeepLog(DetachNodes(w, id), RemoveCluster(DetachNodes(w, id), id));
  }

  lemma MarkingKeepsLog(w: World, mac: string, c: Client)
    requires LogOk(w)
    ensures LogOk(MarkInstalling(w, mac, c)) && LogOk(MarkInstalled(w, mac, c))
  {
    if mac in w.clients {
      var starting, done := SetClientEnrollmentState(w, mac, Installing), SetClientEnrollmentState(w, mac, Installed);
      StateKeepsLog(w, mac, Installing);
      StateKeepsLog(w, mac, Installed);
      EventKeepsLog(starting, Append(starting, Started(mac)), Started(mac));
      EventKeepsLog(done, Append(done, Completed(mac)), Completed(mac));
    }
  }

  lemma FetchKeepsLog(w: World, mac: string, token: string, uuid: string, now: int, env: Env)
    requires LogOk(w)
    ensures LogOk(HandleMachineConfig(w, mac, token, uuid, now, env))
  {
    if mac in w.clients && ValidateToken(Some(w.clients[mac]), token, now).None? {
      var v, e := MarkInstalling(w, mac, w.clients[mac]), ConfigServed(mac, token, uuid, now, |w.log|);
      MarkingKeepsLog(w, mac, w.clients[mac]);
      assert v.log[..|w.log|] == w.log && TokenLogged(w, mac);
      LogKeepsBacked(v.log, e);
      ServingKeepsTokens(v, e);
    }
  }

  lemma ServingKeepsTokens(w: World, e: Event)
    requires TokensLogged(w) && forall mac :: !TokenWrite(e, mac)
    ensures TokensLogged(Append(w, e))
  {
    TokensFollow(w, Append(w, e), e);
  }

  lemma MenuKeepsLog(w: World, mac: string, now: int, env: Env)
    requires LogOk(w)
    ensures LogOk(HandleIPXEMenu(w, mac, now, env))
  {
    if mac !in w.clients {
      EventKeepsLog(w, Append(w, MenuServed(mac, 0)), MenuServed(mac, 0));
    } else {
      var c := w.clients[mac];
      EventKeepsLog(w, Append(w, ScriptServed(mac)), ScriptServed(mac));
      MarkingKeepsLog(w, mac, c);
      MenuStepKeepsLog(MarkInstalled(w, mac, c), mac, c, NextBootID(w, c));
    }
  }

  lemma MenuStepKeepsLog(w: World, mac: string, c: Client, image: nat)
    requires LogOk(w)
    ensures LogOk(ServeMenu(w, mac, c, image))
  {
    NextBootKeepsLog(w, mac, "");
    var v := if c.nextBootImage == "" then w else SetNextBootImage(w, mac, "");
    var e := MenuServed(mac, if c.nextBootImage == "" then 0 else image);
    EventKeepsLog(v, Append(v, e), e);
  }

  lemma AssignNodeKeepsLog(w: World, mac: string, cluster: nat, role: string, disk: string, patch: string,
                           token: string, now: int)
    requires LogOk(w)
    ensures LogOk(AssignNode(w, mac, cluster, role, disk, patch, token, now))
  {
    CreatingKeepsLog(w, NewClient(mac));
    var v := CreateClient(w, NewClient(mac));
    AssigningKeepsLog(v, mac, cluster, role, disk, patch, token, now + TOKEN_TTL, now);
    var u := AssignNodeToCluster(v, mac, cluster, role, disk, patch, token, now + TOKEN_TTL, now);
    EventKeepsLog(u, Append(u, Event.Approved(mac)), Event.Approved(mac));
  }

  lemma StepKeepsLog(w: World, a: Action)
    requires LogOk(w) && Legal(a)
    ensures LogOk(Step(w, a))
  {
    match a
    case Assign(mac, cluster, role, disk, patch, token, now) =>
      AssignNodeKeepsLog(w, mac, cluster, role, disk, patch, token, now);
    case Reinstall(mac, token, now) =>
      if mac in w.clients && w.clients[mac].clusterID.Some? {
        var c := w.clients[mac];
        AssigningKeepsLog(w, mac, c.clusterID.value, c.clusterRole, c.installDisk, c.configPatch, token,
                          now + TOKEN_TTL, now);
      }
    case Unassign(mac) => ResettingKeepsLog(w, mac);
    case MarkNodeInstalled(mac) => StateKeepsLog(w, mac, Installed);
    case RemoveClusterAction(id) => DeletingClusterKeepsLog(w, id);
    case AddClient(client) => CreatingKeepsLog(w, client);
    case RemoveClient(mac) => DeletingKeepsLog(w, mac);
    case SetNextBoot(mac, filename) => NextBootKeepsLog(w, mac, filename);
    case PutCluster(id, row) => SameTokensKeepLog(w, Step(w, a));
    case EditImages(images, nodeImages) => SameTokensKeepLog(w, Step(w, a));
    case Inventory(mac, uuid) =>
      CreatingKeepsLog(w, NewClient(mac));
      SameTokensKeepLog(if NoAddress(mac) then w else CreateClient(w, NewClient(mac)), Step(w, a));
    case FetchConfig(mac, token, uuid, now, env) => FetchKeepsLog(w, mac, token, uuid, now, env);
    case BootMenu(mac, now, env) => MenuKeepsLog(w, mac, now, env);
  }

  /** Each served config was still backed when it was served: nothing wrote the node's token field after the store. */
  predicate StillBacked(log: seq<Event>) {
    forall i | 0 <= i < |log| && log[i].ConfigServed? ::
      Backs(LastWrite(log[..i], log[i].mac), log[i].mac, log[i].token, log[i].at)
  }

  /** log grew by events other than a served config. */
  predicate Extends(log: seq<Event>, longer: seq<Event>) {
    log <= longer && forall i | |log| <= i < |longer| :: !longer[i].ConfigServed?
  }

  lemma MenuServesNoConfig(w: World, mac: string, now: int, env: Env)
    ensures Extends(w.log, HandleIPXEMenu(w, mac, now, env).log)
  {
    if mac in w.clients {
      var v := MarkInstalled(w, mac, w.clients[mac]);
      assert Extends(w.log, v.log);
      MenuStepServesNoConfig(v, mac, w.clients[mac], NextBootID(w, w.clients[mac]));
    }
  }

  lemma MenuStepServesNoConfig(w: World, mac: string, c: Client, image: nat)
    ensures Extends(w.log, ServeMenu(w, mac, c, image).log)
  {
    var e := MenuServed(mac, if c.nextBootImage == "" then 0 else image);
    assert SetNextBootImage(w, mac, "").log == w.log;
    assert ServeMenu(w, mac, c, image).log == w.log + [e];
  }

  lemma AssignServesNoConfig(w: World, mac: string, cluster: nat, role: string, disk: string, patch: string,
                             token: string, now: int)
    ensures Extends(w.log, AssignNode(w, mac, cluster, role, disk, patch, token, now).log)
  {
    assert Extends(w.log, CreateClient(w, NewClient(mac)).log);
  }

  lemma OthersServeNoConfig(w: World, a: Action)
    requires !a.FetchConfig?
    ensures Extends(w.log, Step(w, a).log)
  {
    match a
    case BootMenu(mac, now, env) => MenuServesNoConfig(w, mac, now, env);
    case Assign(mac, cluster, role, disk, patch, token, now) =>
      AssignServesNoConfig(w, mac, cluster, role, disk, patch, token, now);
    case _ =>
  }

  lemma ExtensionKeepsStillBacked(log: seq<Event>, longer: seq<Event>)
    requires StillBacked(log) && Extends(log, longer)
    ensures StillBacked(longer)
  {
    forall i | 0 <= i < |longer| && longer[i].ConfigServed?
      ensures Backs(LastWrite(longer[..i], longer[i].mac), longer[i].mac, longer[i].token, longer[i].at)
    {
      assert longer[i] == log[i] && longer[..i] == log[..i];
    }
  }

  lemma ServingKeepsStillBacked(log: seq<Event>, e: Event)
    requires StillBacked(log) && e.ConfigServed? && Backs(LastWrite(log, e.mac), e.mac, e.token, e.at)
    ensures StillBacked(log + [e])
  {
    var l := log + [e];
    forall i | 0 <= i < |l| && l[i].ConfigServed?
      ensures Backs(LastWrite(l[..i], l[i].mac), l[i].mac, l[i].token, l[i].at) {
      if i < |log| {
        assert l[..i] == log[..i];
      } else {
        assert l[..i] == log;
      }
    }
  }

  lemma FetchKeepsStillBacked(w: World, mac: string, token: string, uuid: string, now: int, env: Env)
    requires StillBacked(w.log) && LogOk(w)
    ensures StillBacked(HandleMachineConfig(w, mac, token, uuid, now, env).log)
  {
    if mac in w.clients && ValidateToken(Some(w.clients[mac]), token, now).None? {
      var u := MarkInstalling(w, mac, w.clients[mac]);
      assert u.log == w.log || u.log == w.log + [Started(mac)];
      ExtensionKeepsStillBacked(w.log, u.log);
      LastWriteAfter(w.log, Started(mac), mac);
      assert TokenLogged(w, mac);
      ServingKeepsStillBacked(u.log, ConfigServed(mac, token, uuid, now, |w.log|));
    }
  }

  lemma StepKeepsStillBacked(w: World, a: Action)
    requires StillBacked(w.log) && LogOk(w)
    ensures StillBacked(Step(w, a).log)
  {
    if a.FetchConfig? {
      FetchKeepsStillBacked(w, a.mac, a.token, a.uuid, a.now, a.env);
    } else {
      OthersServeNoConfig(w, a);
      ExtensionKeepsStillBacked(w.log, Step(w, a).log);
    }
  }

  /** In every run of undisturbed handlers, a machine config is served only on the token last stored for that node,
      before its deadline, with no completion, unassignment, cluster or client deletion since. */
  lemma {:induction false} ConfigsAlwaysBacked(actions: seq<Action>)
    requires forall a <- actions :: Legal(a)
    ensures LogOk(Run(EMPTY, actions)) && StillBacked(Run(EMPTY, actions).log)
    decreases |actions|
  {
    if actions != [] {
      var front, a := actions[..|actions| - 1], actions[|actions| - 1];
      assert forall x <- front :: x in actions;
      ConfigsAlwaysBacked(front);
      StepKeepsLog(Run(EMPTY, front), a);
      StepKeepsStillBacked(Run(EMPTY, front), a);
    }
  }

  // ---- Each installation starts and finishes once; each next-boot setting is used once ----

  /** How often the start (or the completion) of an installation of mac was announced since its latest token store. */
  function Fired(log: seq<Event>, mac: string, completions: bool): nat
    decreases |log|
  {
    if log == [] then 0
    else
      var e := log[|log| - 1];
      if e.TokenStored? && e.mac == mac then 0
      else Fired(log[..|log| - 1], mac, completions) +
           if e == (if completions then Completed(mac) else Started(mac)) then 1 else 0
  }

  /** How many menus preselected an image for mac since its latest next-boot setting. */
  function Preselected(log: seq<Event>, mac: string): nat
    decreases |log|
  {
    if log == [] then 0
    else
      var e := log[|log| - 1];
      if e == NextBootSet(mac) || e == Created(mac) then 0
      else Preselected(log[..|log| - 1], mac) + if e.MenuServed? && e.mac == mac && e.nextBoot != 0 then 1 else 0
  }

  /** Since the latest token store: started at most once, completed at most once and not before started. */
  predicate OnceEach(log: seq<Event>, mac: string) {
    Fired(log, mac, true) <= Fired(log, mac, false) <= 1
  }

  predicate RowAnnounced(log: seq<Event>, mac: string, c: Client) {
    && (c.enrollmentState == EnrollmentState.Approved ==> Fired(log, mac, false) == 0)
    && (c.enrollmentState == Installing ==> Fired(log, mac, false) == 1 && Fired(log, mac, true) == 0)
  }

  /** Announced once each at every point of the log, and the rows' states agree with what was announced. */
  ghost predicate Announced(w: World) {
    && (forall n, mac | 0 <= n <= |w.log| :: OnceEach(w.log[..n], mac))
    && forall mac <- w.clients :: RowAnnounced(w.log, mac, w.clients[mac])
  }

  /** Each next-boot setting used once at every point of the log, and those in the rows not used yet. */
  ghost predicate SettingsUsedOnce(w: World) {
    && (forall n, mac | 0 <= n <= |w.log| :: Preselected(w.log[..n], mac) <= 1)
    && forall mac <- w.clients :: w.clients[mac].nextBootImage != "" ==> Preselected(w.log, mac) == 0
  }

  ghost predicate Counted(w: World) {
    Announced(w) && SettingsUsedOnce(w)
  }

  ghost predicate KeepCounts(w: World, v: World) {
    (Announced(w) ==> Announced(v)) && (SettingsUsedOnce(w) ==> SettingsUsedOnce(v))
  }

  lemma CountsAfter(log: seq<Event>, e: Event, mac: string)
    ensures forall completions :: Fired(log + [e], mac, completions) ==
              if e.TokenStored? && e.mac == mac then 0
              else Fired(log, mac, completions)
                   + if e == (if completions then Completed(mac) else Started(mac)) then 1 else 0
    ensures Preselected(log + [e], mac) ==
              if e == NextBootSet(mac) || e == Created(mac) then 0
              else Preselected(log, mac) + if e.MenuServed? && e.mac == mac && e.nextBoot != 0 then 1 else 0
  {
    assert (log + [e])[..|log|] == log;
  }

  /** How the state of mac may change along with event e. */
  predicate StateFollows(w: World, v: World, e: Event, mac: string)
    requires mac in v.clients
  {
    var state := v.clients[mac].enrollmentState;
    && (state == EnrollmentState.Approved ==>
          (e.TokenStored? && e.mac == mac) ||
          (mac in w.clients && w.clients[mac].enrollmentState == state && e != Started(mac)))
    && (state == Installing ==>
          mac in w.clients && e != Completed(mac) && !(e.TokenStored? && e.mac == mac) &&
          w.clients[mac].enrollmentState == if e == Started(mac) then EnrollmentState.Approved else state)
  }

  /** How the next-boot setting of mac may change along with event e. */
  predicate SettingFollows(w: World, v: World, e: Event, mac: string)
    requires mac in v.clients
  {
    v.clients[mac].nextBootImage != "" ==>
      e == NextBootSet(mac) || e == Created(mac) ||
      (mac in w.clients && w.clients[mac].nextBootImage != "" && !Preselects(e, mac))
  }

  predicate Preselects(e: Event, mac: string) {
    e.MenuServed? && e.mac == mac && e.nextBoot != 0
  }

  lemma EventKeepsAnnounced(w: World, v: World, e: Event)
    requires Announced(w) && v.log == w.log + [e]
    requires e.Started? ==> Fired(w.log, e.mac, false) == 0
    requires e.Completed? ==> Fired(w.log, e.mac, false) == 1 && Fired(w.log, e.mac, true) == 0
    requires forall mac <- v.clients :: StateFollows(w, v, e, mac)
    ensures Announced(v)
  {
    assert w.log[..|w.log|] == w.log;
    forall n, mac | 0 <= n <= |v.log| ensures OnceEach(v.log[..n], mac) {
      assert OnceEach(w.log[..|w.log|], mac);
      if n <= |w.log| {
        assert v.log[..n] == w.log[..n];
      } else {
        assert v.log[..n] == v.log;
        CountsAfter(w.log, e, mac);
      }
    }
    forall mac <- v.clients ensures RowAnnounced(v.log, mac, v.clients[mac]) {
      CountsAfter(w.log, e, mac);
      assert StateFollows(w, v, e, mac) && OnceEach(w.log[..|w.log|], mac);
      assert mac in w.clients ==> RowAnnounced(w.log, mac, w.clients[mac]);
    }
  }

  lemma EventKeepsSettings(w: World, v: World, e: Event)
    requires SettingsUsedOnce(w) && v.log == w.log + [e]
    requires e.MenuServed? && e.nextBoot != 0 ==> Preselected(w.log, e.mac) == 0
    requires forall mac <- v.clients :: SettingFollows(w, v, e, mac)
    ensures SettingsUsedOnce(v)
  {
    assert w.log[..|w.log|] == w.log;
    forall n, mac | 0 <= n <= |v.log| ensures Preselected(v.log[..n], mac) <= 1 {
      assert Preselected(w.log[..|w.log|], mac) <= 1;
      if n <= |w.log| {
        assert v.log[..n] == w.log[..n];
      } else {
        assert v.log[..n] == v.log;
        CountsAfter(w.log, e, mac);
      }
    }
    forall mac <- v.clients | v.clients[mac].nextBootImage != "" ensures Preselected(v.log, mac) == 0 {
      CountsAfter(w.log, e, mac);
      assert SettingFollows(w, v, e, mac);
    }
  }

  /** One more event that neither announces nor preselects, and leaves every row in step with the counts. */
  lemma EventKeepsCounts(w: World, v: World, e: Event)
    requires v.log == w.log + [e] && !e.Started? && !e.Completed? && !(e.MenuServed? && e.nextBoot != 0)
    requires forall mac <- v.clients :: StateFollows(w, v, e, mac) && SettingFollows(w, v, e, mac)
    ensures KeepCounts(w, v)
  {
    if Announced(w) {
      EventKeepsAnnounced(w, v, e);
    }
    if SettingsUsedOnce(w) {
      EventKeepsSettings(w, v, e);
    }
  }

  /** Without an event, states stay and settings stay or go. */
  lemma SameLogKeepsCounts(w: World, v: World)
    requires v.log == w.log && v.clients.Keys == w.clients.Keys
    requires forall mac <- v.clients :: v.clients[mac].enrollmentState == w.clients[mac].enrollmentState
    requires forall mac <- v.clients :: v.clients[mac].nextBootImage in [w.clients[mac].nextBootImage, ""]
    ensures KeepCounts(w, v)
  {
    if Announced(w) {
      forall mac <- v.clients ensures RowAnnounced(v.log, mac, v.clients[mac]) {
        assert RowAnnounced(w.log, mac, w.clients[mac]);
      }
    }
  }

  lemma ClearingKeepsCounts(w: World, mac: string, state: EnrollmentState)
    requires !Holding(state)
    ensures KeepCounts(w, SetClientEnrollmentState(w, mac, state)) && KeepCounts(w, ResetClientEnrollment(w, mac))
  {
    if mac in w.clients {
      EventKeepsCounts(w, ResetClientEnrollment(w, mac), TokensCleared({mac}));
      if state != Pending {
        EventKeepsCounts(w, SetClientEnrollmentState(w, mac, state), TokensCleared({mac}));
      }
    }
  }

  lemma CreatingKeepsCounts(w: World, c: Client)
    requires !Holding(c.enrollmentState)
    ensures KeepCounts(w, CreateClient(w, c))
  {
    if c.macAddress !in w.clients {
      EventKeepsCounts(w, CreateClient(w, c), Created(c.macAddress));
    }
  }

  lemma DeletingKeepsCounts(w: World, mac: string)
    ensures KeepCounts(w, DeleteClient(w, mac))
  {
    if mac in w.clients {
      EventKeepsCounts(w, DeleteClient(w, mac), TokensCleared({mac}));
    }
  }

  lemma NextBootKeepsCounts(w: World, mac: string, filename: string)
    ensures KeepCounts(w, SetNextBootImage(w, mac, filename))
  {
    if mac in w.clients {
      if filename != "" {
        EventKeepsCounts(w, SetNextBootImage(w, mac, filename), NextBootSet(mac));
      } else {
        SameLogKeepsCounts(w, SetNextBootImage(w, mac, filename));
      }
    }
  }

  lemma DetachingKeepsCounts(w: World, id: nat)
    ensures KeepCounts(w, DetachNodes(w, id))
  {
    var nodes := set mac | mac in w.clients && w.clients[mac].clusterID == Some(id);
    EventKeepsCounts(w, DetachNodes(w, id), TokensCleared(nodes));
  }

  lemma AssigningKeepsCounts(w: World, mac: string, cluster: nat, role: string, disk: string, patch: string,
                             token: string, expires: int, now: int)
    ensures KeepCounts(w, AssignNodeToCluster(w, mac, cluster, role, disk, patch, token, expires, now))
  {
    if mac in w.clients {
      EventKeepsCounts(w, AssignNodeToCluster(w, mac, cluster, role, disk, patch, token, expires, now),
                       TokenStored(mac, token, expires));
    }
  }

  lemma ApprovingKeepsCounts(w: World, mac: string, cluster: nat, role: string, disk: string, patch: string,
                             token: string, expires: int, now: int)
    ensures KeepCounts(w, Append(AssignNodeToCluster(w, mac, cluster, role, disk, patch, token, expires, now),
                                 Event.Approved(mac)))
  {
    AssigningKeepsCounts(w, mac, cluster, role, disk, patch, token, expires, now);
    var v := AssignNodeToCluster(w, mac, cluster, role, disk, patch, token, expires, now);
    EventKeepsCounts(v, Append(v, Event.Approved(mac)), Event.Approved(mac));
  }

  lemma AssignNodeKeepsCounts(w: World, mac: string, cluster: nat, role: string, disk: string, patch: string,
                              token: string, now: int)
    ensures KeepCounts(w, AssignNode(w, mac, cluster, role, disk, patch, token, now))
  {
    CreatingKeepsCounts(w, NewClient(mac));
    ApprovingKeepsCounts(CreateClient(w, NewClient(mac)), mac, cluster, role, disk, patch, token, now + TOKEN_TTL, now);
  }

  /** A mark, for whatever row was read, does not use a next-boot setting. */
  lemma MarkingKeepsSettings(w: World, mac: string, row: Client)
    requires SettingsUsedOnce(w)
    ensures SettingsUsedOnce(MarkInstalling(w, mac, row)) && SettingsUsedOnce(MarkInstalled(w, mac, row))
  {
    if mac in w.clients {
      var u, v := SetClientEnrollmentState(w, mac, Installing), SetClientEnrollmentState(w, mac, Installed);
      EventKeepsSettings(u, Append(u, Started(mac)), Started(mac));
      ClearingKeepsCounts(w, mac, Installed);
      EventKeepsSettings(v, Append(v, Completed(mac)), Completed(mac));
    }
  }

  lemma StartingKeepsCounts(w: World, mac: string)
    requires mac in w.clients
    ensures KeepCounts(w, MarkInstalling(w, mac, w.clients[mac]))
  {
    var c := w.clients[mac];
    if Announced(w) && c.enrollmentState == EnrollmentState.Approved {
      assert RowAnnounced(w.log, mac, c);
      EventKeepsAnnounced(w, MarkInstalling(w, mac, c), Started(mac));
    }
    if SettingsUsedOnce(w) {
      MarkingKeepsSettings(w, mac, c);
    }
  }

  lemma CompletingKeepsCounts(w: World, mac: string)
    requires mac in w.clients
    ensures KeepCounts(w, MarkInstalled(w, mac, w.clients[mac]))
  {
    var c := w.clients[mac];
    if Announced(w) && c.enrollmentState == Installing {
      assert RowAnnounced(w.log, mac, c);
      var u := SetClientEnrollmentState(w, mac, Installed);
      ClearingKeepsCounts(w, mac, Installed);
      CountsAfter(w.log, TokensCleared({mac}), mac);
      EventKeepsAnnounced(u, Append(u, Completed(mac)), Completed(mac));
    }
    if SettingsUsedOnce(w) {
      MarkingKeepsSettings(w, mac, c);
    }
  }

  lemma FetchKeepsCounts(w: World, mac: string, token: string, uuid: string, now: int, env: Env)
    ensures KeepCounts(w, HandleMachineConfig(w, mac, token, uuid, now, env))
  {
    if mac in w.clients {
      var v, e := MarkInstalling(w, mac, w.clients[mac]), ConfigServed(mac, token, uuid, now, |w.log|);
      StartingKeepsCounts(w, mac);
      EventKeepsCounts(v, Append(v, e), e);
    }
  }

  lemma MenuKeepsCounts(w: World, mac: string, now: int, env: Env)
    ensures KeepCounts(w, HandleIPXEMenu(w, mac, now, env))
  {
    if mac !in w.clients {
      EventKeepsCounts(w, Append(w, MenuServed(mac, 0)), MenuServed(mac, 0));
    } else {
      var c := w.clients[mac];
      EventKeepsCounts(w, Append(w, ScriptServed(mac)), ScriptServed(mac));
      CompletingKeepsCounts(w, mac);
      ServingKeepsCounts(MarkInstalled(w, mac, c), mac, c, NextBootID(w, c));
    }
  }

  /** Serving a menu announces nothing; if it preselects an image, for whatever row was read, the node's setting must
      still be there. */
  lemma ServingKeepsCounts(w: World, mac: string, row: Client, image: nat)
    ensures Announced(w) ==> Announced(ServeMenu(w, mac, row, image))
    ensures SettingsUsedOnce(w) && (row.nextBootImage != "" && image != 0 ==> HasSetting(w, mac)) ==>
              SettingsUsedOnce(ServeMenu(w, mac, row, image))
  {
    NextBootKeepsCounts(w, mac, "");
    var v := if row.nextBootImage == "" then w else SetNextBootImage(w, mac, "");
    var e := MenuServed(mac, if row.nextBootImage == "" then 0 else image);
    if Announced(w) {
      EventKeepsAnnounced(v, Append(v, e), e);
    }
    if SettingsUsedOnce(w) && (row.nextBootImage != "" && image != 0 ==> HasSetting(w, mac)) {
      EventKeepsSettings(v, Append(v, e), e);
    }
  }

  predicate HasSetting(w: World, mac: string) {
    mac in w.clients && w.clients[mac].nextBootImage != ""
  }

  lemma ReinstallKeepsCounts(w: World, mac: string, token: string, now: int)
    ensures KeepCounts(w, ReinstallNode(w, mac, token, now))
  {
    if mac in w.clients && w.clients[mac].clusterID.Some? {
      var c := w.clients[mac];
      AssigningKeepsCounts(w, mac, c.clusterID.value, c.clusterRole, c.installDisk, c.configPatch, token,
                           now + TOKEN_TTL, now);
    }
  }

  lemma EditingKeepsCounts(w: World, v: World)
    requires v.clients == w.clients && v.log == w.log
    ensures KeepCounts(w, v)
  {
  }

  lemma DeletingClusterKeepsCounts(w: World, id: nat)
    ensures KeepCounts(w, DeleteCluster(w, id))
  {
    DetachingKeepsCounts(w, id);
    EditingKeepsCounts(DetachNodes(w, id), RemoveCluster(DetachNodes(w, id), id));
  }

  lemma SavingKeepsCounts(w: World, mac: string, uuid: string)
    ensures KeepCounts(w, SaveInventory(w, mac, uuid))
  {
    CreatingKeepsCounts(w, NewClient(mac));
    EditingKeepsCounts(if NoAddress(mac) then w else CreateClient(w, NewClient(mac)), SaveInventory(w, mac, uuid));
  }

  lemma StepKeepsCounts(w: World, a: Action)
    requires Plain(a)
    ensures KeepCounts(w, Step(w, a))
  {
    match a
    case Assign(mac, cluster, role, disk, patch, token, now) =>
      AssignNodeKeepsCounts(w, mac, cluster, role, disk, patch, token, now);
    case Reinstall(mac, token, now) => ReinstallKeepsCounts(w, mac, token, now);
    case Unassign(mac) => ClearingKeepsCounts(w, mac, Installed);
    case MarkNodeInstalled(mac) => ClearingKeepsCounts(w, mac, Installed);
    case RemoveClusterAction(id) => DeletingClusterKeepsCounts(w, id);
    case AddClient(client) => CreatingKeepsCounts(w, client);
    case RemoveClient(mac) => DeletingKeepsCounts(w, mac);
    case SetNextBoot(mac, filename) => NextBootKeepsCounts(w, mac, filename);
    case PutCluster(id, row) => EditingKeepsCounts(w, Step(w, a));
    case EditImages(images, nodeImages) => EditingKeepsCounts(w, Step(w, a));
    case Inventory(mac, uuid) => SavingKeepsCounts(w, mac, uuid);
    case FetchConfig(mac, token, uuid, now, env) => FetchKeepsCounts(w, mac, token, uuid, now, env);
    case BootMenu(mac, now, env) => MenuKeepsCounts(w, mac, now, env);
  }

  /** In every run of undisturbed handlers: between two token stores an installation is announced as started at most
      once and as completed at most once, never completed before started; and each next-boot setting preselects an
      image in at most one menu. */
  lemma {:induction false} AnnouncedOnce(actions: seq<Action>)
    requires forall a <- actions :: Plain(a)
    ensures Counted(Run(EMPTY, actions))
    decreases |actions|
  {
    if actions != [] {
      var front, a := actions[..|actions| - 1], actions[|actions| - 1];
      assert forall x <- front :: x in actions;
      AnnouncedOnce(front);
      StepKeepsCounts(Run(EMPTY, front), a);
    }
  }

  // ---- What devices alone can do ----

  /** Everything but the enrolment actions of an administrator and client deletion. */
  predicate ByDevice(a: Action) {
    a.FetchConfig? || a.BootMenu? || a.Inventory? || a.EditImages? || a.PutCluster? || a.SetNextBoot?
  }

  /** approved, then installing, then installed; other states stay. */
  predicate Advances(s: EnrollmentState, t: EnrollmentState) {
    s == t || (s == EnrollmentState.Approved && (t == Installing || t == Installed)) ||
      (s == Installing && t == Installed)
  }

  lemma {:induction false} DevicesOnlyAdvance(w: World, actions: seq<Action>, mac: string)
    requires mac in w.clients && forall a <- actions :: ByDevice(a)
    ensures mac in Run(w, actions).clients
    ensures Advances(w.clients[mac].enrollmentState, Run(w, actions).clients[mac].enrollmentState)
    ensures Run(w, actions).clients[mac].clusterID == w.clients[mac].clusterID
    decreases |actions|
  {
    if actions != [] {
      var front, a := actions[..|actions| - 1], actions[|actions| - 1];
      assert forall x <- front :: x in actions;
      DevicesOnlyAdvance(w, front, mac);
      assert ByDevice(a);
      DeviceStep(Run(w, front), a, mac);
    }
  }

  lemma MenuAdvances(w: World, mac: string, node: string, now: int, env: Env)
    requires node in w.clients
    ensures var v := HandleIPXEMenu(w, mac, now, env);
            && node in v.clients
            && v.clients[node].clusterID == w.clients[node].clusterID
            && (v.clients[node].enrollmentState == w.clients[node].enrollmentState
                || (w.clients[node].enrollmentState == Installing && v.clients[node].enrollmentState == Installed))
  {
    if mac in w.clients {
      var u := MarkInstalled(w, mac, w.clients[mac]);
      assert node in u.clients;
    }
  }

  lemma FetchAdvances(w: World, mac: string, token: string, uuid: string, now: int, env: Env, node: string)
    requires node in w.clients
    ensures var v := HandleMachineConfig(w, mac, token, uuid, now, env);
            && node in v.clients
            && v.clients[node].clusterID == w.clients[node].clusterID
            && (v.clients[node].enrollmentState == w.clients[node].enrollmentState
                || (w.clients[node].enrollmentState == EnrollmentState.Approved &&
                    v.clients[node].enrollmentState == Installing))
  {
  }

  lemma DeviceStep(w: World, a: Action, mac: string)
    requires mac in w.clients && ByDevice(a)
    ensures mac in Step(w, a).clients
    ensures Step(w, a).clients[mac].clusterID == w.clients[mac].clusterID
    ensures Advances(w.clients[mac].enrollmentState, Step(w, a).clients[mac].enrollmentState)
  {
    match a
    case FetchConfig(m, token, uuid, now, env) => FetchAdvances(w, m, token, uuid, now, env, mac);
    case BootMenu(m, now, env) => MenuAdvances(w, m, mac, now, env);
    case _ =>
  }

  // ---- How long a next-boot setting lasts ----

  /** Nobody sets the next boot of the node again or deletes it. */
  predicate LeavesNextBoot(a: Action, mac: string) {
    !(a.SetNextBoot? && a.mac == mac) && !(a.RemoveClient? && a.mac == mac)
  }

  predicate MenuFor(log: seq<Event>, from: nat, mac: string) {
    exists i | from <= i < |log| :: log[i].MenuServed? && log[i].mac == mac
  }

  /** From w to v the setting of a node stays, unless a menu was served to it. */
  predicate NextBootStays(w: World, v: World, mac: string) {
    && w.log <= v.log && mac in w.clients && mac in v.clients
    && v.clients[mac].nextBootImage == if MenuFor(v.log, |w.log|, mac) then "" else w.clients[mac].nextBootImage
  }

  lemma NextBootStaysTwice(w: World, u: World, v: World, mac: string)
    requires NextBootStays(w, u, mac) && NextBootStays(u, v, mac)
    ensures NextBootStays(w, v, mac)
  {
    if i :| |w.log| <= i < |v.log| && v.log[i].MenuServed? && v.log[i].mac == mac && i < |u.log| {
      assert u.log[i] == v.log[i];
    }
    if i :| |w.log| <= i < |u.log| && u.log[i].MenuServed? && u.log[i].mac == mac {
      assert v.log[i] == u.log[i];
    }
  }

  lemma EventKeepsNextBoot(w: World, v: World, e: Event, mac: string)
    requires mac in w.clients && mac in v.clients && v.log == w.log + [e]
    requires v.clients[mac].nextBootImage == if e.MenuServed? && e.mac == mac then "" else w.clients[mac].nextBootImage
    ensures NextBootStays(w, v, mac)
  {
    assert v.log[|w.log|] == e;
  }

  lemma MarkKeepsNextBoot(w: World, node: string, c: Client, mac: string)
    requires mac in w.clients
    ensures NextBootStays(w, MarkInstalled(w, node, c), mac) && NextBootStays(w, MarkInstalling(w, node, c), mac)
  {
    if node in w.clients {
      var u := SetClientEnrollmentState(w, node, Installed);
      EventKeepsNextBoot(w, u, TokensCleared({node}), mac);
      EventKeepsNextBoot(u, Append(u, Completed(node)), Completed(node), mac);
      NextBootStaysTwice(w, u, Append(u, Completed(node)), mac);
      var v := SetClientEnrollmentState(w, node, Installing);
      EventKeepsNextBoot(v, Append(v, Started(node)), Started(node), mac);
      assert v.log == w.log;
    }
  }

  lemma MenuUsesNextBoot(w: World, node: string, mac: string, now: int, env: Env)
    requires mac in w.clients
    ensures NextBootStays(w, HandleIPXEMenu(w, node, now, env), mac)
  {
    EventKeepsNextBoot(w, Append(w, ScriptServed(node)), ScriptServed(node), mac);
    if node !in w.clients {
      EventKeepsNextBoot(w, Append(w, MenuServed(node, 0)), MenuServed(node, 0), mac);
    } else {
      var c := w.clients[node];
      var u, id := MarkInstalled(w, node, c), NextBootID(w, c);
      MarkKeepsNextBoot(w, node, c, mac);
      var v := ServeMenu(u, node, c, id);
      assert SetNextBootImage(u, node, "").log == u.log;
      EventKeepsNextBoot(u, v, MenuServed(node, if c.nextBootImage == "" then 0 else id), mac);
      NextBootStaysTwice(w, u, v, mac);
    }
  }

  lemma FetchKeepsNextBoot(w: World, node: string, token: string, uuid: string, now: int, env: Env, mac: string)
    requires mac in w.clients
    ensures NextBootStays(w, HandleMachineConfig(w, node, token, uuid, now, env), mac)
  {
    if node in w.clients {
      var u, e := MarkInstalling(w, node, w.clients[node]), ConfigServed(node, token, uuid, now, |w.log|);
      MarkKeepsNextBoot(w, node, w.clients[node], mac);
      EventKeepsNextBoot(u, Append(u, e), e, mac);
      NextBootStaysTwice(w, u, Append(u, e), mac);
    }
  }

  lemma CreatingKeepsNextBoot(w: World, c: Client, mac: string)
    requires mac in w.clients
    ensures NextBootStays(w, CreateClient(w, c), mac)
  {
    if c.macAddress !in w.clients {
      EventKeepsNextBoot(w, CreateClient(w, c), Created(c.macAddress), mac);
    }
  }

  lemma AssigningKeepsNextBoot(w: World, node: string, cluster: nat, role: string, disk: string, patch: string,
                               token: string, expires: int, now: int, mac: string)
    requires mac in w.clients
    ensures NextBootStays(w, AssignNodeToCluster(w, node, cluster, role, disk, patch, token, expires, now), mac)
  {
    if node in w.clients {
      EventKeepsNextBoot(w, AssignNodeToCluster(w, node, cluster, role, disk, patch, token, expires, now),
                         TokenStored(node, token, expires), mac);
    }
  }

  lemma AssignKeepsNextBoot(w: World, node: string, cluster: nat, role: string, disk: string, patch: string,
                            token: string, now: int, mac: string)
    requires mac in w.clients
    ensures NextBootStays(w, AssignNode(w, node, cluster, role, disk, patch, token, now), mac)
  {
    var u := CreateClient(w, NewClient(node));
    CreatingKeepsNextBoot(w, NewClient(node), mac);
    AssigningKeepsNextBoot(u, node, cluster, role, disk, patch, token, now + TOKEN_TTL, now, mac);
    var v := AssignNodeToCluster(u, node, cluster, role, disk, patch, token, now + TOKEN_TTL, now);
    NextBootStaysTwice(w, u, v, mac);
    EventKeepsNextBoot(v, Append(v, Event.Approved(node)), Event.Approved(node), mac);
    NextBootStaysTwice(w, v, Append(v, Event.Approved(node)), mac);
  }

  lemma ClearingKeepsNextBoot(w: World, node: string, mac: string)
    requires mac in w.clients
    ensures NextBootStays(w, ResetClientEnrollment(w, node), mac)
    ensures NextBootStays(w, SetClientEnrollmentState(w, node, Installed), mac)
    ensures node != mac ==> NextBootStays(w, DeleteClient(w, node), mac)
  {
    if node in w.clients {
      EventKeepsNextBoot(w, ResetClientEnrollment(w, node), TokensCleared({node}), mac);
      EventKeepsNextBoot(w, SetClientEnrollmentState(w, node, Installed), TokensCleared({node}), mac);
      if node != mac {
        EventKeepsNextBoot(w, DeleteClient(w, node), TokensCleared({node}), mac);
      }
    }
  }

  lemma DeletingClusterKeepsNextBoot(w: World, id: nat, mac: string)
    requires mac in w.clients
    ensures NextBootStays(w, DeleteCluster(w, id), mac)
  {
    var nodes := set m | m in w.clients && w.clients[m].clusterID == Some(id);
    EventKeepsNextBoot(w, DetachNodes(w, id), TokensCleared(nodes), mac);
  }

  lemma OtherNextBoot(w: World, node: string, filename: string, mac: string)
    requires mac in w.clients && node != mac
    ensures NextBootStays(w, SetNextBootImage(w, node, filename), mac)
  {
    if node in w.clients && filename != "" {
      EventKeepsNextBoot(w, SetNextBootImage(w, node, filename), NextBootSet(node), mac);
    }
  }

  lemma ReinstallKeepsNextBoot(w: World, node: string, token: string, now: int, mac: string)
    requires mac in w.clients
    ensures NextBootStays(w, ReinstallNode(w, node, token, now), mac)
  {
    if node in w.clients && w.clients[node].clusterID.Some? {
      var c := w.clients[node];
      AssigningKeepsNextBoot(w, node, c.clusterID.value, c.clusterRole, c.installDisk, c.configPatch, token,
                             now + TOKEN_TTL, now, mac);
    }
  }

  lemma SavingKeepsNextBoot(w: World, node: string, uuid: string, mac: string)
    requires mac in w.clients
    ensures NextBootStays(w, SaveInventory(w, node, uuid), mac)
  {
    CreatingKeepsNextBoot(w, NewClient(node), mac);
  }

  lemma EditingKeepsNextBoot(w: World, v: World, mac: string)
    requires mac in w.clients && v.clients == w.clients && v.log == w.log
    ensures NextBootStays(w, v, mac)
  {
  }

  lemma StepKeepsNextBoot(w: World, a: Action, mac: string)
    requires mac in w.clients && LeavesNextBoot(a, mac)
    ensures NextBootStays(w, Step(w, a), mac)
  {
    match a
    case Assign(node, cluster, role, disk, patch, token, now) =>
      AssignKeepsNextBoot(w, node, cluster, role, disk, patch, token, now, mac);
    case Reinstall(node, token, now) => ReinstallKeepsNextBoot(w, node, token, now, mac);
    case Unassign(node) => ClearingKeepsNextBoot(w, node, mac);
    case MarkNodeInstalled(node) => ClearingKeepsNextBoot(w, node, mac);
    case RemoveClusterAction(id) => DeletingClusterKeepsNextBoot(w, id, mac);
    case AddClient(client) => CreatingKeepsNextBoot(w, client, mac);
    case RemoveClient(node) => ClearingKeepsNextBoot(w, node, mac);
    case SetNextBoot(node, filename) => OtherNextBoot(w, node, filename, mac);
    case PutCluster(id, row) => EditingKeepsNextBoot(w, Step(w, a), mac);
    case EditImages(images, nodeImages) => EditingKeepsNextBoot(w, Step(w, a), mac);
    case Inventory(node, uuid) => SavingKeepsNextBoot(w, node, uuid, mac);
    case FetchConfig(node, token, uuid, now, env) => FetchKeepsNextBoot(w, node, token, uuid, now, env, mac);
    case BootMenu(node, now, env) => MenuUsesNextBoot(w, node, mac, now, env);
  }

  /** A next-boot setting survives any run of handlers, however many install scripts are served, until a menu is
      served to its node, and then it is gone. */
  lemma {:induction false} NextBootLastsUntilMenu(w: World, actions: seq<Action>, mac: string)
    requires mac in w.clients && forall a <- actions :: LeavesNextBoot(a, mac)
    ensures NextBootStays(w, Run(w, actions), mac)
    decreases |actions|
  {
    if actions != [] {
      var front, a := actions[..|actions| - 1], actions[|actions| - 1];
      assert forall x <- front :: x in actions;
      NextBootLastsUntilMenu(w, front, mac);
      var u := Run(w, front);
      StepKeepsNextBoot(u, a, mac);
      NextBootStaysTwice(w, u, Step(u, a), mac);
    }
  }
}
