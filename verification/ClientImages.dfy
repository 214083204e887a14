/** Which images a machine may boot. */
module ClientImages {
  import opened Models

  datatype Image = Image(filename: string, enabled: bool, public: bool)

  datatype Access = Access(enabled: bool, allowed: seq<string>, group: Option<nat>, showPublic: bool)

  datatype ClientGroup = ClientGroup(enabled: bool, allowed: seq<string>)

  /** Filenames are unique in the table. */
  predicate Keyed(images: seq<Image>) {
    forall i, j | 0 <= i < j < |images| :: images[i].filename != images[j].filename
  }

  /** The rows with a property, in table order. */
  function Where(images: seq<Image>, keep: Image -> bool): (rows: seq<Image>)
    ensures forall i :: i in rows <==> i in images && keep(i)
    ensures Keyed(images) ==> Keyed(rows)
  {
    if images == [] then []
    else
      var n := |images| - 1;
      var front := Where(images[..n], keep);
      assert images == images[..n] + [images[n]];
      assert Keyed(images) ==> forall i <- front :: i.filename != images[n].filename;
      if keep(images[n]) then front + [images[n]] else front
  }

  /** The lists a client may boot from: its own, and that of its group while the group is enabled. */
  predicate Assigned(c: Access, groups: map<nat, ClientGroup>, filename: string) {
    || filename in c.allowed
    || (c.group.Some? && c.group.value in groups && groups[c.group.value].enabled &&
        filename in groups[c.group.value].allowed)
  }

  /** A machine that is unknown or disabled may boot what is public. */
  predicate MayBoot(clients: map<string, Access>, groups: map<nat, ClientGroup>, mac: string, i: Image) {
    i.enabled &&
    if mac in clients && clients[mac].enabled then
      Assigned(clients[mac], groups, i.filename) || (clients[mac].showPublic && i.public)
    else i.public
  }

  /** a is b with some elements left out. */
  predicate IsSubsequence(a: seq<string>, b: seq<string>) {
    a == [] ||
    (b != [] &&
     ((a[|a| - 1] == b[|b| - 1] && IsSubsequence(a[..|a| - 1], b[..|b| - 1])) || IsSubsequence(a, b[..|b| - 1])))
  }

  lemma SubsequenceNext(a: seq<string>, b: seq<string>, x: string)
    requires IsSubsequence(a, b)
    ensures IsSubsequence(a, b + [x]) && IsSubsequence(a + [x], b + [x])
  {
    assert (a + [x])[..|a|] == a && (b + [x])[..|b|] == b;
  }

  /** own, and after it what is not in it, each once and in its order. */
  ghost predicate Unites(allowed: seq<string>, own: seq<string>, more: seq<string>) {
    && own <= allowed
    && (forall f :: f in allowed <==> f in own || f in more)
    && (forall k | |own| <= k < |allowed| :: allowed[k] !in allowed[..k])
    && IsSubsequence(allowed[|own|..], more)
  }

  lemma UnitesNext(allowed: seq<string>, own: seq<string>, more: seq<string>, x: string)
    requires Unites(allowed, own, more)
    ensures Unites(if x in allowed then allowed else allowed + [x], own, more + [x])
  {
    SubsequenceNext(allowed[|own|..], more, x);
    var longer := allowed + [x];
    assert longer[|own|..] == allowed[|own|..] + [x];
    assert forall f :: f in longer <==> f in allowed || f == x;
    assert forall k | 0 <= k <= |allowed| :: longer[..k] == allowed[..k];
  }

  /** Appends what is not there yet. */
  method Union(own: seq<string>, more: seq<string>) returns (allowed: seq<string>)
    ensures Unites(allowed, own, more)
  {
    allowed := own;
    var seen := set f | f in own;
    assert allowed[|own|..] == [];
    for k := 0 to |more|
      invariant Unites(allowed, own, more[..k])
      invariant forall f :: f in seen <==> f in allowed
    {
      assert more[..k + 1] == more[..k] + [more[k]];
      UnitesNext(allowed, own, more[..k], more[k]);
      if more[k] !in seen {
        allowed := allowed + [more[k]];
        seen := seen + {more[k]};
      }
    }
    assert more[..|more|] == more;
  }

  method AddPublic(images: seq<Image>, picked: seq<Image>) returns (all: seq<Image>)
    requires Keyed(images) && Keyed(picked) && forall i <- picked :: i in images
    ensures picked <= all && Keyed(all)
    ensures forall i :: i in all <==> i in picked || (i in images && i.enabled && i.public)
  {
    var public := Where(images, (i: Image) => i.enabled && i.public);
    var seen := set i | i in picked :: i.filename;
    all := picked;
    for k := 0 to |public|
      invariant picked <= all && Keyed(all) && forall i :: i in all <==> i in picked || i in public[..k]
    {
      var p := public[k];
      assert p in public && p in images;
      if p.filename !in seen {
        forall i <- all ensures i.filename != p.filename {
          if i !in picked {
            var j :| 0 <= j < k && public[j] == i;
          }
        }
        all := all + [p];
      } else {
        SameName(images, picked, p);
      }
    }
    assert public[..|public|] == public;
  }

  lemma SameName(images: seq<Image>, picked: seq<Image>, p: Image)
    requires Keyed(images) && (forall i <- picked :: i in images) && p in images
    requires exists i <- picked :: i.filename == p.filename
    ensures p in picked
  {
  }

  /** Exactly the images the machine may boot, each once; the two backends differ in nothing but log lines. */
  method GetImagesForClient(clients: map<string, Access>, groups: map<nat, ClientGroup>, images: seq<Image>,
                            mac: string)
    returns (found: seq<Image>)
    requires Keyed(images)
    ensures Keyed(found) && forall i :: i in found <==> i in images && MayBoot(clients, groups, mac, i)
    ensures mac !in clients || !clients[mac].enabled ==>
              forall i :: i in found <==> i in images && i.enabled && i.public
    ensures mac in clients && clients[mac].enabled ==>
              var c := clients[mac];
              forall i :: i in found <==>
                && i in images && i.enabled
                && (|| i.filename in c.allowed || (c.showPublic && i.public)
                    || exists g :: c.group == Some(g) && g in groups && groups[g].enabled &&
                                   i.filename in groups[g].allowed)
  {
    if mac in clients && clients[mac].enabled {
      var client := clients[mac];
      var allowed := client.allowed;
      if client.group.Some? && client.group.value in groups && groups[client.group.value].enabled {
        allowed := Union(allowed, groups[client.group.value].allowed);
      }
      var picked: seq<Image> := [];
      if |allowed| > 0 {
        picked := Where(images, (i: Image) => i.filename in allowed && i.enabled);
      }
      if client.showPublic {
        picked := AddPublic(images, picked);
      }
      if |picked| > 0 {
        return picked;
      }
      assert forall i :: i !in picked;
      if !client.showPublic {
        return [];
      }
    }
    found := Where(images, (i: Image) => i.enabled && i.public);
  }
}
