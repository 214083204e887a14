/** Machine configuration for one node: uploaded base, computed overlay, then the node's patch. */
module Talos {
  import opened Models
  import opened Templates
  import opened MergeYaml

  /** What parsing a document gives: an error, null, or a map. */
  datatype Parsed = Bad | Null | Doc(entries: map<string, Node>)

  datatype Rendered =
    | UnknownRole
    | NoConfig
    | BadConfig
    | BadPatch
    | Document(tree: Node, rest: Option<string>)

  predicate Blank(s: string) {
    forall i | 0 <= i < |s| :: Space(s[i])
  }

  function Hostname(client: Client): string {
    if client.name != "" then client.name
    else
      var suffix := ReplaceAll(client.macAddress, ":", "");
      "node-" + if |suffix| > 6 then suffix[|suffix| - 6..] else suffix
  }

  function InstallDisk(cluster: Cluster, client: Client): string {
    if client.installDisk != "" then client.installDisk else cluster.defaultInstallDisk
  }

  function Vars(cluster: Cluster, client: Client, serverAddr: string): map<string, string> {
    map[
      "{{MAC}}" := client.macAddress,
      "{{HOSTNAME}}" := Hostname(client),
      "{{SERVER_ADDR}}" := serverAddr,
      "{{INSTALL_DISK}}" := InstallDisk(cluster, client),
      "{{CLUSTER_NAME}}" := cluster.name
    ]
  }

  lemma NodeKeysArePlain()
    ensures PlainKey("{{MAC}}") && PlainKey("{{HOSTNAME}}") && PlainKey("{{SERVER_ADDR}}")
  {
  }

  lemma ClusterKeysArePlain()
    ensures PlainKey("{{INSTALL_DISK}}") && PlainKey("{{CLUSTER_NAME}}")
  {
  }

  lemma VarsArePlaceholders(cluster: Cluster, client: Client, serverAddr: string)
    ensures forall k <- Vars(cluster, client, serverAddr).Keys :: PlainKey(k)
  {
    NodeKeysArePlain();
    ClusterKeysArePlain();
  }

  /** A node without an install disk, on its own row or as its cluster's default, makes rendering depend on the
      iteration order of the variable map. */
  lemma NoDiskMakesOrderMatter(cluster: Cluster, client: Client, serverAddr: string)
    requires InstallDisk(cluster, client) == "" && client.macAddress != "{{MAC}}"
    ensures var vars := Vars(cluster, client, serverAddr);
            exists s, o1, o2 :: Enumerates(o1, vars.Keys) && Enumerates(o2, vars.Keys) &&
                                InOrder(s, o1, vars) != InOrder(s, o2, vars)
  {
    var vars := Vars(cluster, client, serverAddr);
    VarsArePlaceholders(cluster, client, serverAddr);
    var k1, k2 := "{{MAC}}", "{{INSTALL_DISK}}";
    assert Aligned(vars[k2], k1, -1);
    var s, good, bad := FormingBreaksOrder(vars, k1, k2);
  }

  /** t is s with its placeholders substituted, in some iteration order. */
  ghost predicate Substituted(s: string, vars: map<string, string>, t: string) {
    exists order :: Enumerates(order, vars.Keys) && t == InOrder(s, order, vars)
  }

  const SEPARATOR := "\n---\n"

  /** strings.SplitN(s, SEPARATOR, 2) */
  function Split(s: string): (string, Option<string>)
    decreases |s|
  {
    if s == "" then ("", None)
    else if SEPARATOR <= s then ("", Some(s[|SEPARATOR|..]))
    else
      var (first, rest) := Split(s[1..]);
      ([s[0]] + first, rest)
  }

  function BaseConfig(cluster: Cluster, client: Client): Option<string> {
    if client.clusterRole == CONTROL_PLANE then Some(cluster.controlPlaneConfig)
    else if client.clusterRole == WORKER then Some(cluster.workerConfig)
    else None
  }

  function Overlay(hostname: string, disk: string): Node {
    var network := map["network" := Tree(map["hostname" := Leaf(hostname)])];
    Tree(map["machine" := Tree(if disk == "" then network else network["install" := Tree(map["disk" := Leaf(disk)])])])
  }

  /** What a patch text amounts to: nothing (blank or null), an error, or a layer to merge. */
  datatype Patch = Keep | Invalid | Layer(tree: Node)

  function ReadPatch(parse: string -> Parsed, patch: string, text: string): (p: Patch)
    ensures p.Layer? ==> p.tree.Tree?
  {
    if Blank(patch) then Keep
    else match parse(text)
      case Bad => Invalid
      case Null => Keep
      case Doc(entries) => Layer(Tree(entries))
  }

  function Uploaded(parse: string -> Parsed, text: string): Node {
    var doc := parse(text);
    Tree(if doc.Doc? then doc.entries else map[])
  }

  /** The result for the given substituted texts of the base and of the patch. */
  function RenderText(parse: string -> Parsed, cluster: Cluster, client: Client, base: string,
                      patch: string): Rendered {
    match BaseConfig(cluster, client)
    case None => UnknownRole
    case Some(config) =>
      if Blank(config) then NoConfig
      else
        var (first, rest) := Split(base);
        if parse(first).Bad? then BadConfig
        else
          var doc := Merge(Uploaded(parse, first), Overlay(Hostname(client), InstallDisk(cluster, client)));
          match ReadPatch(parse, client.configPatch, patch)
          case Invalid => BadPatch
          case Keep => Document(doc, rest)
          case Layer(layer) => Document(Merge(doc, layer), rest)
  }

  /** A fresh map object for a parsed document. */
  method Unmarshal(n: Node) returns (m: YamlMap)
    requires n.Tree?
    ensures m.Valid() && fresh(m.Repr) && m.tree == n
    decreases n
  {
    m := new YamlMap();
    var todo := n.entries.Keys;
    while todo != {}
      invariant todo <= n.entries.Keys
      invariant m.Valid() && fresh(m.Repr)
      invariant m.tree == Tree(map k | k in n.entries && k !in todo :: n.entries[k])
    {
      var k :| k in todo;
      match n.entries[k] {
        case Leaf(text) =>
          m.Put(k, Scalar(text), n.entries[k]);
        case Tree(_) =>
          var sub := Unmarshal(n.entries[k]);
          m.Put(k, Sub(sub), n.entries[k]);
      }
      todo := todo - {k};
      assert m.tree.entries == map k | k in n.entries && k !in todo :: n.entries[k];
    }
    assert m.tree.entries == n.entries;
  }

  /** The patch, with its placeholders substituted, folded into doc in place. */
  method ApplyPatch(parse: string -> Parsed, doc: YamlMap?, patch: string, vars: map<string, string>)
    returns (ok: bool, r: YamlMap?, ghost text: string)
    requires doc != null ==> doc.Valid()
    modifies if doc == null then {} else doc.Repr
    ensures !Blank(patch) ==> Substituted(patch, vars, text)
    ensures ok <==> ReadPatch(parse, patch, text) != Invalid
    ensures ReadPatch(parse, patch, text).Keep? ==>
            r == doc && (doc != null ==> doc.Valid() && doc.tree == old(doc.tree))
    ensures ReadPatch(parse, patch, text).Layer? ==>
              r != null && r.Valid() && (doc != null ==> r == doc) &&
              r.tree == var n := ReadPatch(parse, patch, text).tree;
                        if doc == null then n else Merge(old(doc.tree), n)
  {
    text := "";
    if Blank(patch) {
      return true, doc, text;
    }
    var substituted := Substitute(patch, vars);
    text := substituted;
    match parse(substituted) {
      case Bad =>
        ok, r := false, null;
      case Null =>
        ok, r := true, doc;
      case Doc(entries) =>
        var layer := Unmarshal(Tree(entries));
        ok := true;
        r := MergeYAML(doc, layer);
    }
  }

  /** r is the result for these texts of the base and of the patch, substituted wherever they were needed. */
  ghost predicate RenderedFrom(parse: string -> Parsed, cluster: Cluster, client: Client, serverAddr: string,
                               base: string, patch: string, r: Rendered)
  {
    var vars := Vars(cluster, client, serverAddr);
    && r == RenderText(parse, cluster, client, base, patch)
    && (r.BadConfig? || r.Document? || r.BadPatch? ==> Substituted(BaseConfig(cluster, client).value, vars, base))
    && (r.Document? || r.BadPatch? ==> Blank(client.configPatch) || Substituted(client.configPatch, vars, patch))
  }

  /** The machine configuration served to a node. */
  method Render(parse: string -> Parsed, cluster: Cluster, client: Client, serverAddr: string) returns (r: Rendered)
    ensures exists base, patch :: RenderedFrom(parse, cluster, client, serverAddr, base, patch, r)
  {
    var vars := Vars(cluster, client, serverAddr);
    var config := BaseConfig(cluster, client);
    if config.None? {
      assert RenderedFrom(parse, cluster, client, serverAddr, "", "", UnknownRole);
      return UnknownRole;
    }
    if Blank(config.value) {
      assert RenderedFrom(parse, cluster, client, serverAddr, "", "", NoConfig);
      return NoConfig;
    }
    var base := Substitute(config.value, vars);
    var (first, rest) := Split(base);
    var parsed := parse(first);
    if parsed.Bad? {
      assert RenderedFrom(parse, cluster, client, serverAddr, base, "", BadConfig);
      return BadConfig;
    }
    var doc := Unmarshal(Tree(if parsed.Doc? then parsed.entries else map[]));
    var overlay := Unmarshal(Overlay(Hostname(client), InstallDisk(cluster, client)));
    doc := MergeYAML(doc, overlay);
    var ok, patched, patch := ApplyPatch(parse, doc, client.configPatch, vars);
    if !ok {
      assert RenderedFrom(parse, cluster, client, serverAddr, base, patch, BadPatch);
      return BadPatch;
    }
    var tree := Marshal(patched);
    r := Document(tree, rest);
    assert RenderedFrom(parse, cluster, client, serverAddr, base, patch, r);
  }

  /** The document a map object spells out. */
  method Marshal(m: YamlMap) returns (n: Node)
    requires m.Valid()
    ensures n == m.tree
    decreases m.tree
  {
    var entries: map<string, Node> := map[];
    var todo := m.entries.Keys;
    while todo != {}
      invariant todo <= m.entries.Keys
      invariant entries == map k | k in m.tree.entries && k !in todo :: m.tree.entries[k]
    {
      var k :| k in todo;
      assert m.Spells(k);
      match m.entries[k] {
        case Scalar(text) =>
          entries := entries[k := Leaf(text)];
        case Sub(sub) =>
          var child := Marshal(sub);
          entries := entries[k := child];
      }
      todo := todo - {k};
    }
    n := Tree(entries);
    assert entries == m.tree.entries;
  }

  const HOSTNAME_PATH := ["machine", "network", "hostname"]
  const DISK_PATH := ["machine", "install", "disk"]

  /** What the patch of a rendered node says; an empty document if it has none. */
  function PatchTree(parse: string -> Parsed, client: Client, patch: string): Node {
    var p := ReadPatch(parse, client.configPatch, patch);
    if p.Layer? then p.tree else Tree(map[])
  }

  lemma Layers(parse: string -> Parsed, cluster: Cluster, client: Client, base: string, patch: string)
    requires RenderText(parse, cluster, client, base, patch).Document?
    ensures RenderText(parse, cluster, client, base, patch).tree
         == Merge(Merge(Uploaded(parse, Split(base).0), Overlay(Hostname(client), InstallDisk(cluster, client))),
                  PatchTree(parse, client, patch))
  {
    var doc := Merge(Uploaded(parse, Split(base).0), Overlay(Hostname(client), InstallDisk(cluster, client)));
    assert Merge(doc, Tree(map[])).entries == doc.entries;
  }

  /** The hostname and the configured install disk end up in the document whatever was uploaded, unless the patch
      speaks about that path, and then the patch decides. */
  lemma ComputedValuesStand(parse: string -> Parsed, cluster: Cluster, client: Client, base: string, patch: string)
    requires RenderText(parse, cluster, client, base, patch).Document?
    ensures var out := RenderText(parse, cluster, client, base, patch).tree;
            var layer := PatchTree(parse, client, patch);
            var disk := InstallDisk(cluster, client);
            && At(out, HOSTNAME_PATH) == (if Silent(layer, HOSTNAME_PATH) then Some(Leaf(Hostname(client)))
                                          else At(layer, HOSTNAME_PATH))
            && (disk != "" ==>
                At(out, DISK_PATH) == if Silent(layer, DISK_PATH) then Some(Leaf(disk)) else At(layer, DISK_PATH))
  {
    Layers(parse, cluster, client, base, patch);
    var uploaded := Uploaded(parse, Split(base).0);
    var computed := Overlay(Hostname(client), InstallDisk(cluster, client));
    OverlayAt(Hostname(client), InstallDisk(cluster, client));
    MergeAt(uploaded, computed, HOSTNAME_PATH);
    MergeAt(uploaded, computed, DISK_PATH);
    MergeAt(Merge(uploaded, computed), PatchTree(parse, client, patch), HOSTNAME_PATH);
    MergeAt(Merge(uploaded, computed), PatchTree(parse, client, patch), DISK_PATH);
  }

  lemma OverlayAt(hostname: string, disk: string)
    ensures At(Overlay(hostname, disk), HOSTNAME_PATH) == Some(Leaf(hostname))
    ensures !Silent(Overlay(hostname, disk), HOSTNAME_PATH)
    ensures disk != "" ==> At(Overlay(hostname, disk), DISK_PATH) == Some(Leaf(disk))
    ensures disk != "" <==> !Silent(Overlay(hostname, disk), DISK_PATH)
  {
    var o := Overlay(hostname, disk);
    var m := o.entries["machine"];
    assert HOSTNAME_PATH[1..] == ["network", "hostname"] && HOSTNAME_PATH[1..][1..] == ["hostname"];
    assert DISK_PATH[1..] == ["install", "disk"] && DISK_PATH[1..][1..] == ["disk"];
    assert At(m, ["network", "hostname"]) == At(m.entries["network"], ["hostname"]);
  }

  /** Whatever the upload holds on a path neither the overlay nor the patch speaks about reaches the node unchanged. */
  lemma UploadSurvives(parse: string -> Parsed, cluster: Cluster, client: Client, base: string, patch: string,
                       path: seq<string>)
    requires RenderText(parse, cluster, client, base, patch).Document?
    requires Silent(Overlay(Hostname(client), InstallDisk(cluster, client)), path)
    requires Silent(PatchTree(parse, client, patch), path)
    ensures At(RenderText(parse, cluster, client, base, patch).tree, path) == At(Uploaded(parse, Split(base).0), path)
  {
    Layers(parse, cluster, client, base, patch);
    var uploaded := Uploaded(parse, Split(base).0);
    var computed := Overlay(Hostname(client), InstallDisk(cluster, client));
    MergeAt(uploaded, computed, path);
    MergeAt(Merge(uploaded, computed), PatchTree(parse, client, patch), path);
  }
}
