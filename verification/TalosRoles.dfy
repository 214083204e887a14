/** Whose configuration, disk and name a rendered document carries. */
module TalosRoles {
  import opened Models
  import opened Templates
  import opened MergeYaml
  import opened Talos

  // ---- Roles ----

  /** A control-plane node is rendered from the control-plane configuration of its cluster, a worker from the worker
      configuration, and no one else from anything; without the configuration of its role a node gets none. */
  lemma RoleDecides(parse: string -> Parsed, cluster: Cluster, client: Client, serverAddr: string, base: string,
                    patch: string, r: Rendered)
    requires RenderedFrom(parse, cluster, client, serverAddr, base, patch, r)
    ensures r.UnknownRole? <==> client.clusterRole !in ["controlplane", "worker"]
    ensures client.clusterRole == "controlplane" ==>
              && (r.NoConfig? <==> forall c <- cluster.controlPlaneConfig :: Space(c))
              && (!r.NoConfig? ==> Substituted(cluster.controlPlaneConfig, Vars(cluster, client, serverAddr), base))
    ensures client.clusterRole == "worker" ==>
              && (r.NoConfig? <==> forall c <- cluster.workerConfig :: Space(c))
              && (!r.NoConfig? ==> Substituted(cluster.workerConfig, Vars(cluster, client, serverAddr), base))
    ensures r.Document? ==>
              && r.rest == Split(base).1
              && r.tree == Merge(Merge(Uploaded(parse, Split(base).0),
                                       Overlay(Hostname(client), InstallDisk(cluster, client))),
                                 PatchTree(parse, client, patch))
  {
    if r.Document? {
      Layers(parse, cluster, client, base, patch);
    }
  }

  /** A patch of spaces only, or one that parses to null, leaves the document as it is; one that does not parse is an
      error; any other is merged over it. */
  lemma PatchDecides(parse: string -> Parsed, cluster: Cluster, client: Client, base: string, patch: string)
    requires var r := RenderText(parse, cluster, client, base, patch); r.Document? || r.BadPatch?
    ensures var r := RenderText(parse, cluster, client, base, patch);
            var doc := Merge(Uploaded(parse, Split(base).0), Overlay(Hostname(client), InstallDisk(cluster, client)));
            if forall c <- client.configPatch :: Space(c) then r == Document(doc, Split(base).1)
            else match parse(patch)
              case Bad => r.BadPatch?
              case Null => r == Document(doc, Split(base).1)
              case Doc(entries) => r == Document(Merge(doc, Tree(entries)), Split(base).1)
  {
  }

  /** The document starts after the upload's map, or from an empty one if the upload is null; an upload that does not
      parse is an error. */
  lemma UploadDecides(parse: string -> Parsed, cluster: Cluster, client: Client, base: string, patch: string)
    requires var r := RenderText(parse, cluster, client, base, patch); !r.UnknownRole? && !r.NoConfig?
    ensures RenderText(parse, cluster, client, base, patch).BadConfig? <==> parse(Split(base).0) == Bad
    ensures parse(Split(base).0) == Null ==> Uploaded(parse, Split(base).0) == Tree(map[])
    ensures forall entries | parse(Split(base).0) == Doc(entries) :: Uploaded(parse, Split(base).0) == Tree(entries)
  {
  }

  // ---- Documents after the first ----

  predicate Occurs(s: string, i: nat) {
    i <= |s| && "\n---\n" <= s[i..]
  }

  lemma OccursLater(s: string, i: nat)
    requires s != ""
    ensures Occurs(s, 0) <==> "\n---\n" <= s
    ensures i > 0 ==> (Occurs(s, i) <==> Occurs(s[1..], i - 1))
  {
    assert s[0..] == s;
    assert 0 < i <= |s| ==> s[1..][i - 1..] == s[i..];
  }

  /** A text is cut at its first line of three dashes between others, or not at all. */
  lemma {:induction false} SplitIs(s: string)
    ensures var (first, rest) := Split(s);
            if rest.Some? then s == first + "\n---\n" + rest.value && forall i | 0 <= i < |first| :: !Occurs(s, i)
            else first == s && forall i | 0 <= i <= |s| :: !Occurs(s, i)
    decreases |s|
  {
    if s != "" && !(SEPARATOR <= s) {
      SplitIs(s[1..]);
      var (first, rest) := Split(s[1..]);
      assert s == [s[0]] + s[1..];
      forall i: nat | i <= |s| ensures Occurs(s, i) <==> i > 0 && Occurs(s[1..], i - 1) {
        OccursLater(s, i);
      }
    }
  }

  /** What is configured for one role does not show in the other's document. */
  lemma OtherRoleIgnored(parse: string -> Parsed, cluster: Cluster, client: Client, serverAddr: string, base: string,
                         patch: string, r: Rendered, other: string)
    ensures client.clusterRole == "worker" ==>
              (RenderedFrom(parse, cluster.(controlPlaneConfig := other), client, serverAddr, base, patch, r) <==>
               RenderedFrom(parse, cluster, client, serverAddr, base, patch, r))
    ensures client.clusterRole == "controlplane" ==>
              (RenderedFrom(parse, cluster.(workerConfig := other), client, serverAddr, base, patch, r) <==>
               RenderedFrom(parse, cluster, client, serverAddr, base, patch, r))
  {
  }

  // ---- Names and disks ----

  function WithoutColons(s: string): string {
    if s == "" then "" else (if s[0] == ':' then "" else [s[0]]) + WithoutColons(s[1..])
  }

  lemma {:induction false} ColonsGo(s: string)
    ensures ReplaceAll(s, ":", "") == WithoutColons(s)
    decreases |s|
  {
    if s != "" {
      ColonsGo(s[1..]);
      assert ":" <= s <==> s[0] == ':';
    }
  }

  /** A node goes by its name; one without a name by the last six characters of its address without colons. */
  lemma HostnameIs(client: Client)
    ensures client.name != "" ==> Hostname(client) == client.name
    ensures client.name == "" ==>
              exists front, last ::
                && WithoutColons(client.macAddress) == front + last && Hostname(client) == "node-" + last
                && (|last| == 6 || (|last| < 6 && front == ""))
  {
    ColonsGo(client.macAddress);
    if client.name == "" {
      var s := WithoutColons(client.macAddress);
      var cut := if |s| > 6 then |s| - 6 else 0;
      assert s == s[..cut] + s[cut..] && Hostname(client) == "node-" + s[cut..];
    }
  }

  /** A node's own disk wins over its cluster's default. */
  lemma DiskIs(parse: string -> Parsed, cluster: Cluster, client: Client, base: string, patch: string)
    requires RenderText(parse, cluster, client, base, patch).Document?
    requires Silent(PatchTree(parse, client, patch), ["machine", "install", "disk"])
    ensures var disk := At(RenderText(parse, cluster, client, base, patch).tree, ["machine", "install", "disk"]);
            && (client.installDisk != "" ==> disk == Some(Leaf(client.installDisk)))
            && (client.installDisk == "" && cluster.defaultInstallDisk != "" ==>
                  disk == Some(Leaf(cluster.defaultInstallDisk)))
            && (client.installDisk == "" && cluster.defaultInstallDisk == "" ==>
                  disk == At(Uploaded(parse, Split(base).0), ["machine", "install", "disk"]))
  {
    ComputedValuesStand(parse, cluster, client, base, patch);
    if client.installDisk == "" && cluster.defaultInstallDisk == "" {
      OverlayAt(Hostname(client), "");
      UploadSurvives(parse, cluster, client, base, patch, DISK_PATH);
    }
  }

  // ---- Placeholders ----

  lemma KeyRenders(vars: map<string, string>, k: string, t: string)
    requires Placeholders(vars.Keys) && NothingForms(vars) && k in vars
    ensures Substituted(k, vars, t) <==> t == vars[k]
  {
    var some := SomeOrder(vars.Keys);
    KeyAlone(vars, k, some);
    if Substituted(k, vars, t) {
      var order :| Enumerates(order, vars.Keys) && t == InOrder(k, order, vars);
      KeyAlone(vars, k, order);
    }
  }

  /** Each placeholder, as a template of its own, gives its value, when no value can take part in forming another:
      what is the node's, */
  lemma NodePlaceholdersGive(cluster: Cluster, client: Client, serverAddr: string, t: string)
    requires NothingForms(Vars(cluster, client, serverAddr))
    ensures Substituted("{{MAC}}", Vars(cluster, client, serverAddr), t) <==> t == client.macAddress
    ensures Substituted("{{HOSTNAME}}", Vars(cluster, client, serverAddr), t) <==> t == Hostname(client)
    ensures Substituted("{{INSTALL_DISK}}", Vars(cluster, client, serverAddr), t) <==>
            t == if client.installDisk != "" then client.installDisk else cluster.defaultInstallDisk
  {
    var vars := Vars(cluster, client, serverAddr);
    VarsArePlaceholders(cluster, client, serverAddr);
    KeyRenders(vars, "{{MAC}}", t);
    KeyRenders(vars, "{{HOSTNAME}}", t);
    KeyRenders(vars, "{{INSTALL_DISK}}", t);
  }

  /** and what is the server's and the cluster's. */
  lemma SitePlaceholdersGive(cluster: Cluster, client: Client, serverAddr: string, t: string)
    requires NothingForms(Vars(cluster, client, serverAddr))
    ensures Substituted("{{SERVER_ADDR}}", Vars(cluster, client, serverAddr), t) <==> t == serverAddr
    ensures Substituted("{{CLUSTER_NAME}}", Vars(cluster, client, serverAddr), t) <==> t == cluster.name
  {
    var vars := Vars(cluster, client, serverAddr);
    VarsArePlaceholders(cluster, client, serverAddr);
    KeyRenders(vars, "{{SERVER_ADDR}}", t);
    KeyRenders(vars, "{{CLUSTER_NAME}}", t);
  }
}
