/** Where the menu script's jumps and items lead, and what can be reached from its main menu. */
module MenuLinks {
  import opened Models
  import opened MenuTree
  import opened Menu
  import G = Groups

  /** The labels a line may send control to; a preset item is only a hint among the items. */
  function Uses(l: Line): set<Target> {
    match l
    case Item(t) => {t}
    case Goto(t) => {t}
    case Choose(_, t) => {t}
    case Try(t) => {t}
    case _ => {}
  }

  predicate Used(lines: seq<Line>, t: Target) {
    exists l <- lines :: t in Uses(l)
  }

  /** Control in the section of one label can go straight to another. */
  predicate Leads(lines: seq<Line>, section: Option<Target>, from: Target, to: Target) {
    lines != [] &&
    ((section == Some(from) && to in Uses(lines[0])) || Leads(lines[1..], Next(lines[0], section), from, to))
  }

  function Next(l: Line, section: Option<Target>): Option<Target> {
    if l.Label? then Some(l.target) else section
  }

  /** The section that is open after these lines. */
  function Section(lines: seq<Line>, section: Option<Target>): Option<Target> {
    if lines == [] then section else Section(lines[1..], Next(lines[0], section))
  }

  lemma {:induction false} LeadsAppend(a: seq<Line>, b: seq<Line>, section: Option<Target>, from: Target, to: Target)
    ensures Leads(a + b, section, from, to) <==> Leads(a, section, from, to) || Leads(b, Section(a, section), from, to)
    decreases |a|
  {
    if a == [] {
      assert a + b == b;
    } else {
      assert (a + b)[1..] == a[1..] + b && (a + b)[0] == a[0];
      LeadsAppend(a[1..], b, Next(a[0], section), from, to);
    }
  }

  lemma {:induction false} LeadsIsUse(lines: seq<Line>, section: Option<Target>, from: Target, to: Target)
    requires Leads(lines, section, from, to)
    ensures Used(lines, to)
    decreases |lines|
  {
    assert lines[0] in lines && forall l <- lines[1..] :: l in lines;
    if !(section == Some(from) && to in Uses(lines[0])) {
      LeadsIsUse(lines[1..], Next(lines[0], section), from, to);
    }
  }

  lemma UsedAppend(a: seq<Line>, b: seq<Line>, t: Target)
    ensures Used(a + b, t) <==> Used(a, t) || Used(b, t)
  {
    assert forall l :: l in a + b <==> l in a || l in b;
  }

  lemma UsedJoin(a: seq<Line>, b: seq<Line>, c: seq<Line>, t: Target)
    ensures Used(a + b + c, t) <==> Used(a, t) || Used(b, t) || Used(c, t)
  {
    UsedAppend(a + b, c, t);
    UsedAppend(a, b, t);
  }

  predicate NoLabel(lines: seq<Line>) {
    forall l <- lines :: !l.Label?
  }

  lemma {:induction false} LeadsInBody(body: seq<Line>, section: Option<Target>, from: Target, to: Target)
    requires NoLabel(body)
    ensures Leads(body, section, from, to) <==> section == Some(from) && Used(body, to)
    decreases |body|
  {
    if body != [] {
      assert body[0] in body && forall l <- body[1..] :: l in body;
      LeadsInBody(body[1..], section, from, to);
      UsedAppend([body[0]], body[1..], to);
      assert body == [body[0]] + body[1..];
    }
  }

  /** A label and the lines below it, up to the next label. */
  lemma OneSection(t: Target, body: seq<Line>, section: Option<Target>, from: Target, to: Target)
    requires NoLabel(body)
    ensures Leads([Label(t)] + body, section, from, to) <==> from == t && Used(body, to)
    ensures Used([Label(t)] + body, to) <==> Used(body, to)
    ensures Label(to) in [Label(t)] + body <==> to == t
  {
    assert ([Label(t)] + body)[1..] == body;
    LeadsInBody(body, Some(t), from, to);
    UsedAppend([Label(t)], body, to);
  }

  // ---- What each part uses and defines ----

  lemma ItemsUse(groups: seq<G.Row>, images: seq<Image>, t: Target)
    ensures Used(GroupItems(groups) + ImageItems(images), t) <==>
            (exists g <- groups :: t == Group(g.id)) || (exists i <- images :: t == Iso(i.id))
    ensures NoLabel(GroupItems(groups) + ImageItems(images))
  {
    var a, b := GroupItems(groups), ImageItems(images);
    UsedAppend(a, b, t);
    if g :| g in groups && t == Group(g.id) {
      var k :| 0 <= k < |groups| && groups[k] == g;
      assert a[k] in a;
    }
    if i :| i in images && t == Iso(i.id) {
      var k :| 0 <= k < |images| && images[k] == i;
      assert b[k] in b;
    }
  }

  lemma ClosingUses(preset: Option<Target>, again: Target, t: Target)
    ensures Used(Closing(preset, again), t) <==> t in {Local, Shell, Reboot, again}
    ensures NoLabel(Closing(preset, again))
  {
    var end := Closing(preset, again);
    assert end[0] in end && end[1] in end && end[2] in end && end[3] in end;
  }

  ghost predicate MainUses(mb: MenuBuilder, t: Target) {
    match t
    case Group(p) => exists g <- mb.groups :: g.parent.None? && Visible(mb, g) && g.id == p
    case Iso(n) => exists i <- mb.images :: i.enabled && i.group.None? && i.id == n
    case Tools => mb.tools != []
    case _ => t in {Start, Local, Shell, Reboot}
  }

  lemma MainMenuUses(mb: MenuBuilder, t: Target)
    ensures Used(MainBody(mb), t) <==> MainUses(mb, t)
    ensures NoLabel(MainBody(mb))
  {
    var groups, images := VisibleUnder(mb, mb.groups, None), Listed(mb.images, None);
    UsedJoin(ToolsItem(mb), GroupItems(groups) + ImageItems(images), Closing(Some(MainDefault(mb)), Start), t);
    ItemsUse(groups, images, t);
    ClosingUses(Some(MainDefault(mb)), Start, t);
    if mb.tools != [] {
      assert ToolsItem(mb)[0] in ToolsItem(mb);
    }
  }

  ghost predicate GroupUses(mb: MenuBuilder, g: G.Row, t: Target) {
    || t == UpFrom(g.parent)
    || match t
       case Group(p) => p == g.id || exists c <- mb.groups :: c.parent == Some(g.id) && Visible(mb, c) && c.id == p
       case Iso(n) => exists i <- mb.images :: i.enabled && i.group == Some(g.id) && i.id == n
       case _ => t in {Local, Shell, Reboot}
  }

  lemma GroupMenuUses(mb: MenuBuilder, g: G.Row, t: Target)
    ensures Used(GroupBody(mb, g), t) <==> GroupUses(mb, g, t)
    ensures NoLabel(GroupBody(mb, g))
  {
    var groups, images := VisibleUnder(mb, mb.groups, Some(g.id)), Listed(mb.images, Some(g.id));
    var up, end := [Item(UpFrom(g.parent))], Closing(None, Group(g.id));
    assert GroupBody(mb, g) == (GroupItems(groups) + ImageItems(images)) + up + end;
    UsedJoin(GroupItems(groups) + ImageItems(images), up, end, t);
    ItemsUse(groups, images, t);
    ClosingUses(None, Group(g.id), t);
    assert up[0] in up;
  }

  lemma BootSectionUses(i: Image, t: Target)
    ensures Used(BootBody(i), t) <==> t == UpFrom(i.group) || (t == Failed && i.bootMethod in ["nbd", "nfs", "kernel"])
    ensures NoLabel(BootBody(i))
  {
    var s := BootBody(i);
    assert s[0] in s && s[1] in s;
  }

  /** Some group of these has a menu that defines the label, or uses it, or leads to it from there. */
  ghost predicate SomeMenu(mb: MenuBuilder, groups: seq<G.Row>, head: Option<Target>, use: Option<Target>) {
    exists g <- groups ::
      Visible(mb, g) && (head.Some? ==> head.value == Group(g.id)) && (use.Some? ==> GroupUses(mb, g, use.value))
  }

  lemma SomeMenuSnoc(mb: MenuBuilder, groups: seq<G.Row>, head: Option<Target>, use: Option<Target>)
    requires groups != []
    ensures var g := groups[|groups| - 1];
            SomeMenu(mb, groups, head, use) <==>
            || SomeMenu(mb, groups[..|groups| - 1], head, use)
            || (Visible(mb, g) && (head.Some? ==> head.value == Group(g.id)) &&
                (use.Some? ==> GroupUses(mb, g, use.value)))
  {
    assert groups == groups[..|groups| - 1] + [groups[|groups| - 1]];
  }

  lemma {:induction false} GroupMenusLead(mb: MenuBuilder, groups: seq<G.Row>, section: Option<Target>, from: Target,
                                          to: Target)
    requires GroupMenus(mb, groups).Some?
    ensures var lines := GroupMenus(mb, groups).value;
            && (Leads(lines, section, from, to) <==> SomeMenu(mb, groups, Some(from), Some(to)))
            && (Used(lines, to) <==> SomeMenu(mb, groups, None, Some(to)))
            && (Label(to) in lines <==> SomeMenu(mb, groups, Some(to), None))
    decreases |groups|
  {
    if groups != [] {
      var n := |groups| - 1;
      var g := groups[n];
      GroupMenusLead(mb, groups[..n], section, from, to);
      SomeMenuSnoc(mb, groups, Some(from), Some(to));
      SomeMenuSnoc(mb, groups, None, Some(to));
      SomeMenuSnoc(mb, groups, Some(to), None);
      if Visible(mb, g) {
        GroupMenuUses(mb, g, to);
        SectionAdds(GroupMenus(mb, groups[..n]).value, Group(g.id), GroupBody(mb, g), section, from, to);
      }
    }
  }

  lemma SectionAdds(front: seq<Line>, t: Target, body: seq<Line>, section: Option<Target>, from: Target, to: Target)
    requires NoLabel(body)
    ensures var lines := front + ([Label(t)] + body);
            && (Leads(lines, section, from, to) <==> Leads(front, section, from, to) || (from == t && Used(body, to)))
            && (Used(lines, to) <==> Used(front, to) || Used(body, to))
            && (Label(to) in lines <==> Label(to) in front || to == t)
  {
    LeadsAppend(front, [Label(t)] + body, section, from, to);
    OneSection(t, body, Section(front, section), from, to);
    UsedAppend(front, [Label(t)] + body, to);
  }

  lemma {:induction false} BootSectionsLead(images: seq<Image>, section: Option<Target>, from: Target, to: Target)
    ensures Leads(BootSections(images), section, from, to) <==>
            exists i <- images :: i.enabled && from == Iso(i.id) && Used(BootBody(i), to)
    ensures Used(BootSections(images), to) <==> exists i <- images :: i.enabled && Used(BootBody(i), to)
    ensures Label(to) in BootSections(images) <==> exists i <- images :: i.enabled && to == Iso(i.id)
    decreases |images|
  {
    if images != [] {
      var n := |images| - 1;
      var i := images[n];
      BootSectionsLead(images[..n], section, from, to);
      assert forall x :: x in images <==> x in images[..n] || x == i by {
        assert images == images[..n] + [i];
      }
      var front := BootSections(images[..n]);
      if i.enabled {
        BootSectionUses(i, to);
        SectionAdds(front, Iso(i.id), BootBody(i), section, from, to);
      } else {
        assert BootSections(images) == front + [] == front;
      }
    }
  }

  lemma {:induction false} ToolSectionsUse(tools: seq<string>, t: Target)
    ensures Used(ToolSections(tools), t) <==> t == Failed && tools != []
    ensures Label(t) in ToolSections(tools) <==> t.Tool? && t.name in tools
    decreases |tools|
  {
    if tools != [] {
      var n := |tools| - 1;
      var last := [Label(Tool(tools[n])), Try(Failed)];
      ToolSectionsUse(tools[..n], t);
      UsedAppend(ToolSections(tools[..n]), last, t);
      assert last[1] in last;
      assert tools == tools[..n] + [tools[n]];
    }
  }

  lemma ToolsMenuUses(tools: seq<string>, t: Target)
    ensures Used(ToolsMenu(tools), t) <==> t in {Back, Start} || (t.Tool? && t.name in tools)
    ensures Label(t) in ToolsMenu(tools) <==> t == Tools
  {
    var items, end := ToolItems(tools), [Item(Back), Choose(None, Start), GotoSelected];
    UsedAppend([Label(Tools)] + items, end, t);
    UsedAppend([Label(Tools)], items, t);
    assert end[0] in end && end[1] in end;
    if t.Tool? && t.name in tools {
      var k :| 0 <= k < |tools| && tools[k] == t.name;
      assert items[k] in items;
    }
  }

  lemma EndingsAre(t: Target)
    ensures Used(ENDINGS, t) <==> t == Start
    ensures Label(t) in ENDINGS <==> t in {Local, Shell, Reboot, Failed}
  {
    assert ENDINGS[0] in ENDINGS && ENDINGS[2] in ENDINGS && ENDINGS[4] in ENDINGS && ENDINGS[6] in ENDINGS &&
           ENDINGS[7] in ENDINGS;
  }

  lemma ToolsTopUses(tools: seq<string>, t: Target)
    ensures var top := ToolsMenu(tools) + [Label(Back), Goto(Start)];
            && (Used(top, t) <==> t in {Back, Start} || (t.Tool? && t.name in tools))
            && (Label(t) in top <==> t in {Tools, Back})
  {
    var back := [Label(Back), Goto(Start)];
    UsedAppend(ToolsMenu(tools), back, t);
    ToolsMenuUses(tools, t);
    assert back[1] in back;
  }

  lemma FooterUses(mb: MenuBuilder, t: Target)
    ensures Used(Footer(mb), t) <==>
            t == Start || (mb.tools != [] && (t in {Back, Failed} || (t.Tool? && t.name in mb.tools)))
    ensures Label(t) in Footer(mb) <==>
            || t in {Local, Shell, Reboot, Failed}
            || (mb.tools != [] && (t in {Tools, Back} || (t.Tool? && t.name in mb.tools)))
  {
    UsedJoin(if mb.tools != [] then ToolsMenu(mb.tools) + [Label(Back), Goto(Start)] else [], ToolSections(mb.tools),
             ENDINGS, t);
    ToolsTopUses(mb.tools, t);
    ToolSectionsUse(mb.tools, t);
    EndingsAre(t);
  }

  // ---- The whole script ----

  ghost predicate Jumps(mb: MenuBuilder) {
    HasEnabledImage(mb, mb.nextBootImageID)
  }

  ghost function Top(mb: MenuBuilder): seq<Line> {
    if Jumps(mb) then [Goto(Iso(mb.nextBootImageID))] else MainMenu(mb)
  }

  ghost predicate TopUses(mb: MenuBuilder, t: Target) {
    if Jumps(mb) then t == Iso(mb.nextBootImageID) else MainUses(mb, t)
  }

  lemma TopIs(mb: MenuBuilder, t: Target)
    ensures Used(Top(mb), t) <==> TopUses(mb, t)
    ensures Label(t) in Top(mb) <==> t == Start && !Jumps(mb)
  {
    if Jumps(mb) {
      assert Top(mb)[0] in Top(mb);
    } else {
      MainMenuUses(mb, t);
      OneSection(Start, MainBody(mb), None, Start, t);
    }
  }

  lemma ScriptUses(mb: MenuBuilder, t: Target)
    requires Script(mb).Some?
    ensures Used(Script(mb).value, t) <==>
            || TopUses(mb, t) || SomeMenu(mb, mb.groups, None, Some(t))
            || (exists i <- mb.images :: i.enabled && Used(BootBody(i), t)) || Used(Footer(mb), t)
  {
    var menus, sections := GroupMenus(mb, mb.groups).value, BootSections(mb.images);
    UsedAppend(Top(mb) + menus + sections, Footer(mb), t);
    UsedJoin(Top(mb), menus, sections, t);
    GroupMenusLead(mb, mb.groups, None, t, t);
    BootSectionsLead(mb.images, None, t, t);
    TopIs(mb, t);
  }

  lemma ScriptDefines(mb: MenuBuilder, t: Target)
    requires Script(mb).Some?
    ensures Label(t) in Script(mb).value <==>
            || (t == Start && !Jumps(mb)) || (exists g <- mb.groups :: Visible(mb, g) && t == Group(g.id))
            || (exists i <- mb.images :: i.enabled && t == Iso(i.id)) || Label(t) in Footer(mb)
  {
    GroupMenusLead(mb, mb.groups, None, t, t);
    BootSectionsLead(mb.images, None, t, t);
    TopIs(mb, t);
  }

  /** The labels that are used but missing: groups that are gone or disabled, and :start behind a next-boot jump. */
  ghost predicate Dangling(mb: MenuBuilder, t: Target) {
    match t
    case Start => Jumps(mb)
    case Group(p) =>
      && !(exists g <- mb.groups :: g.id == p && g.enabled)
      && ((exists g <- mb.groups :: Visible(mb, g) && g.parent == Some(p)) ||
          (exists i <- mb.images :: i.enabled && i.group == Some(p)))
    case _ => false
  }

  /** A group with a bootable descendant is bootable, so only its own row can keep it out of the script. */
  lemma ParentPopulated(mb: MenuBuilder, p: nat)
    requires (exists g <- mb.groups :: Visible(mb, g) && g.parent == Some(p)) ||
             (exists i <- mb.images :: i.enabled && i.group == Some(p))
    ensures Populated(mb.groups, mb.images, p)
  {
    PopulatedUnfolds(mb.groups, mb.images, p);
    if g :| g in mb.groups && Visible(mb, g) && g.parent == Some(p) {
      assert Child(mb.groups, p, g.id);
    }
  }

  lemma BootsUseGroupIff(mb: MenuBuilder, p: nat)
    ensures (exists i <- mb.images :: i.enabled && Used(BootBody(i), Group(p))) <==>
            exists i <- mb.images :: i.enabled && i.group == Some(p)
  {
    forall i <- mb.images ensures Used(BootBody(i), Group(p)) <==> i.group == Some(p) {
      BootSectionUses(i, Group(p));
    }
  }

  lemma MenusUseGroupIff(mb: MenuBuilder, p: nat)
    ensures SomeMenu(mb, mb.groups, None, Some(Group(p))) <==>
            || (exists g <- mb.groups :: Visible(mb, g) && g.id == p)
            || (exists g <- mb.groups :: Visible(mb, g) && g.parent == Some(p))
  {
    if g :| g in mb.groups && Visible(mb, g) && (g.id == p || g.parent == Some(p)) {
      assert GroupUses(mb, g, Group(p));
    }
    if g :| g in mb.groups && Visible(mb, g) && GroupUses(mb, g, Group(p)) && g.id != p && g.parent != Some(p) {
      var c :| c in mb.groups && c.parent == Some(g.id) && Visible(mb, c) && c.id == p;
    }
  }

  lemma TopUsesGroup(mb: MenuBuilder, p: nat)
    requires TopUses(mb, Group(p))
    ensures exists g <- mb.groups :: Visible(mb, g) && g.id == p
  {
  }

  lemma GroupUsedIff(mb: MenuBuilder, p: nat)
    requires Script(mb).Some?
    ensures Used(Script(mb).value, Group(p)) <==>
            || (exists g <- mb.groups :: Visible(mb, g) && g.id == p)
            || (exists g <- mb.groups :: Visible(mb, g) && g.parent == Some(p))
            || (exists i <- mb.images :: i.enabled && i.group == Some(p))
  {
    ScriptUses(mb, Group(p));
    FooterUses(mb, Group(p));
    BootsUseGroupIff(mb, p);
    MenusUseGroupIff(mb, p);
    if TopUses(mb, Group(p)) {
      TopUsesGroup(mb, p);
    }
  }

  lemma GroupDanglingIff(mb: MenuBuilder, p: nat)
    requires Script(mb).Some?
    ensures Used(Script(mb).value, Group(p)) && Label(Group(p)) !in Script(mb).value <==> Dangling(mb, Group(p))
  {
    GroupUsedIff(mb, p);
    GroupLabelIff(mb, p);
    ShownIff(mb, p);
  }

  lemma ShownIff(mb: MenuBuilder, p: nat)
    ensures (exists g <- mb.groups :: Visible(mb, g) && g.id == p) <==>
            Populated(mb.groups, mb.images, p) && exists g <- mb.groups :: g.id == p && g.enabled
    ensures (exists g <- mb.groups :: Visible(mb, g) && g.parent == Some(p)) ||
            (exists i <- mb.images :: i.enabled && i.group == Some(p))
            ==> Populated(mb.groups, mb.images, p)
  {
    if (exists g <- mb.groups :: Visible(mb, g) && g.parent == Some(p)) ||
       (exists i <- mb.images :: i.enabled && i.group == Some(p)) {
      ParentPopulated(mb, p);
    }
  }

  lemma GroupLabelIff(mb: MenuBuilder, p: nat)
    requires Script(mb).Some?
    ensures Label(Group(p)) in Script(mb).value <==> exists g <- mb.groups :: Visible(mb, g) && g.id == p
  {
    ScriptDefines(mb, Group(p));
    FooterUses(mb, Group(p));
  }

  lemma MenusUseOther(mb: MenuBuilder, t: Target)
    requires !t.Group? && SomeMenu(mb, mb.groups, None, Some(t))
    ensures t in {Start, Local, Shell, Reboot} || exists i <- mb.images :: i.enabled && t == Iso(i.id)
  {
  }

  lemma BootsUseOther(mb: MenuBuilder, t: Target)
    requires !t.Group? && exists i <- mb.images :: i.enabled && Used(BootBody(i), t)
    ensures t in {Start, Failed}
  {
    var i :| i in mb.images && i.enabled && Used(BootBody(i), t);
    BootSectionUses(i, t);
  }

  lemma OtherDanglingIff(mb: MenuBuilder, t: Target)
    requires Script(mb).Some? && !t.Group?
    ensures Used(Script(mb).value, t) && Label(t) !in Script(mb).value <==> Dangling(mb, t)
  {
    ScriptUses(mb, t);
    ScriptDefines(mb, t);
    FooterUses(mb, t);
    if SomeMenu(mb, mb.groups, None, Some(t)) {
      MenusUseOther(mb, t);
    }
    if exists i <- mb.images :: i.enabled && Used(BootBody(i), t) {
      BootsUseOther(mb, t);
    }
  }

  /** Every other goto, item and fallback in the script has its label, and these have not. */
  lemma DanglingIff(mb: MenuBuilder, t: Target)
    requires Script(mb).Some?
    ensures Used(Script(mb).value, t) && Label(t) !in Script(mb).value <==> Dangling(mb, t)
  {
    if t.Group? {
      GroupDanglingIff(mb, t.id);
    } else {
      OtherDanglingIff(mb, t);
    }
  }

  /** Building fails exactly when some visible group's parent row is gone. */
  lemma PanicsIff(mb: MenuBuilder)
    ensures Script(mb).None? <==> exists g <- mb.groups :: Visible(mb, g) && !ParentPresent(mb, g)
  {
    GroupMenusPanicIff(mb, mb.groups);
  }

  lemma {:induction false} GroupMenusPanicIff(mb: MenuBuilder, groups: seq<G.Row>)
    ensures GroupMenus(mb, groups).None? <==> exists g <- groups :: Visible(mb, g) && !ParentPresent(mb, g)
    decreases |groups|
  {
    if groups != [] {
      var n := |groups| - 1;
      GroupMenusPanicIff(mb, groups[..n]);
      assert groups == groups[..n] + [groups[n]];
    }
  }

  /** A disabled group that holds an enabled image: the image's section jumps to a menu that is not there. */
  lemma DisabledGroupDangles()
    ensures var mb := MenuBuilder([Image(1, "a", Some(2), true, "")], [G.Row(2, "g", None, false)], [], None, 0, false);
            var script := Script(mb);
            script.Some? && Used(script.value, Group(2)) && Label(Group(2)) !in script.value
  {
    var i, g := Image(1, "a", Some(2), true, ""), G.Row(2, "g", None, false);
    var mb := MenuBuilder([i], [g], [], None, 0, false);
    PanicsIff(mb);
    assert i in mb.images;
    DanglingIff(mb, Group(2));
  }

  /** A visible group whose parent row is gone. */
  lemma OrphanStopsTheMenu()
    ensures Script(
              MenuBuilder([Image(1, "a", Some(2), true, "")], [G.Row(2, "g", Some(1), true)], [], None, 0, false)).None?
  {
    var i, g := Image(1, "a", Some(2), true, ""), G.Row(2, "g", Some(1), true);
    var mb := MenuBuilder([i], [g], [], None, 0, false);
    assert i in mb.images && g in mb.groups;
    PopulatedUnfolds(mb.groups, mb.images, 2);
    PanicsIff(mb);
  }

  /** The item a main menu falls to when its time runs out is one of its items exactly when no next boot is set. */
  lemma DefaultIsItemIff(mb: MenuBuilder)
    requires !Jumps(mb)
    ensures MainUses(mb, MainDefault(mb)) <==> mb.nextBootImageID == 0
    ensures Choose(Some(MainDefault(mb)), Start) in MainMenu(mb)
  {
    var groups, images := VisibleUnder(mb, mb.groups, None), Listed(mb.images, None);
    if groups != [] {
      assert groups[0] in groups;
    }
    if images != [] {
      assert images[0] in images;
    }
    assert Closing(Some(MainDefault(mb)), Start)[3] in Closing(Some(MainDefault(mb)), Start);
  }

  // ---- What can be reached ----

  /** Control can pass along these sections, from the main menu on. */
  predicate Route(lines: seq<Line>, p: seq<Target>) {
    p != [] && p[0] == Start && forall k | 0 <= k < |p| - 1 :: Leads(lines, None, p[k], p[k + 1])
  }

  ghost predicate Reachable(lines: seq<Line>, t: Target) {
    exists p: seq<Target> :: Route(lines, p) && p[|p| - 1] == t
  }

  lemma ReachOn(lines: seq<Line>, from: Target, to: Target)
    requires Reachable(lines, from) && Leads(lines, None, from, to)
    ensures Reachable(lines, to)
  {
    var p: seq<Target> :| Route(lines, p) && p[|p| - 1] == from;
    assert Route(lines, p + [to]) && (p + [to])[|p|] == to;
  }

  lemma ReachStart(lines: seq<Line>)
    ensures Reachable(lines, Start)
  {
    assert Route(lines, [Start]) && [Start][0] == Start;
  }

  /** From this group, enabled groups lead up to a root. */
  predicate Climbs(groups: seq<G.Row>, group: Option<nat>, chain: seq<nat>)
    decreases |chain|
  {
    match group
    case None => chain == []
    case Some(g) =>
      chain != [] && chain[0] == g
      && exists r <- groups :: r.id == g && r.enabled && Climbs(groups, r.parent, chain[1..])
  }

  ghost predicate Rooted(groups: seq<G.Row>, group: Option<nat>) {
    exists chain: seq<nat> :: Climbs(groups, group, chain)
  }

  lemma RootedUp(groups: seq<G.Row>, r: G.Row)
    requires r in groups && r.enabled && Rooted(groups, r.parent)
    ensures Rooted(groups, Some(r.id))
  {
    var chain: seq<nat> :| Climbs(groups, r.parent, chain);
    assert ([r.id] + chain)[1..] == chain;
    assert Climbs(groups, Some(r.id), [r.id] + chain);
  }

  lemma RootedDown(groups: seq<G.Row>, g: nat)
    requires Rooted(groups, Some(g))
    ensures exists r <- groups :: r.id == g && r.enabled && Rooted(groups, r.parent)
  {
    var chain: seq<nat> :| Climbs(groups, Some(g), chain);
    var r :| r in groups && r.id == g && r.enabled && Climbs(groups, r.parent, chain[1..]);
    assert Rooted(groups, r.parent);
  }

  /** Primary keys. */
  predicate Keyed(mb: MenuBuilder) {
    && (forall i, j | 0 <= i < j < |mb.groups| :: mb.groups[i].id != mb.groups[j].id)
    && (forall i, j | 0 <= i < j < |mb.images| :: mb.images[i].id != mb.images[j].id)
  }

  /** Some section of the script that is not the footer leads from one label to the other. */
  ghost predicate Edge(mb: MenuBuilder, from: Target, to: Target) {
    || (from == Start && MainUses(mb, to))
    || SomeMenu(mb, mb.groups, Some(from), Some(to))
    || (exists i <- mb.images :: i.enabled && from == Iso(i.id) && Used(BootBody(i), to))
  }

  lemma ScriptLeads(mb: MenuBuilder, lines: seq<Line>, from: Target, to: Target)
    requires Script(mb) == Some(lines) && !Jumps(mb)
    ensures Leads(lines, None, from, to) ==> Edge(mb, from, to) || Used(Footer(mb), to)
    ensures Edge(mb, from, to) ==> Leads(lines, None, from, to)
  {
    var menus, sections := GroupMenus(mb, mb.groups).value, BootSections(mb.images);
    var top := MainMenu(mb);
    MainMenuUses(mb, to);
    OneSection(Start, MainBody(mb), None, from, to);
    LeadsAppend(top + menus + sections, Footer(mb), None, from, to);
    LeadsAppend(top + menus, sections, None, from, to);
    LeadsAppend(top, menus, None, from, to);
    GroupMenusLead(mb, mb.groups, Section(top, None), from, to);
    BootSectionsLead(mb.images, Section(top + menus, None), from, to);
    if Leads(Footer(mb), Section(top + menus + sections, None), from, to) {
      LeadsIsUse(Footer(mb), Section(top + menus + sections, None), from, to);
    }
  }

  /** What every place the user can get to has in common. */
  ghost predicate InReach(mb: MenuBuilder, t: Target) {
    match t
    case Group(g) => Rooted(mb.groups, Some(g))
    case Iso(n) => forall i <- mb.images :: i.enabled && i.id == n ==> Rooted(mb.groups, i.group)
    case _ => true
  }

  lemma EdgeStaysInReach(mb: MenuBuilder, from: Target, to: Target)
    requires Keyed(mb) && InReach(mb, from) && Edge(mb, from, to)
    ensures InReach(mb, to)
  {
    if from == Start && MainUses(mb, to) {
      FromMain(mb, to);
    } else if SomeMenu(mb, mb.groups, Some(from), Some(to)) {
      var g :| g in mb.groups && Visible(mb, g) && from == Group(g.id) && GroupUses(mb, g, to);
      FromGroup(mb, g, to);
    } else {
      var i :| i in mb.images && i.enabled && from == Iso(i.id) && Used(BootBody(i), to);
      BootSectionUses(i, to);
    }
  }

  lemma FooterStaysInReach(mb: MenuBuilder, to: Target)
    requires Used(Footer(mb), to)
    ensures InReach(mb, to)
  {
    FooterUses(mb, to);
  }

  lemma StepStaysInReach(mb: MenuBuilder, lines: seq<Line>, from: Target, to: Target)
    requires Script(mb) == Some(lines) && !Jumps(mb) && Keyed(mb)
    requires InReach(mb, from) && Leads(lines, None, from, to)
    ensures InReach(mb, to)
  {
    ScriptLeads(mb, lines, from, to);
    if Used(Footer(mb), to) {
      FooterStaysInReach(mb, to);
    } else {
      EdgeStaysInReach(mb, from, to);
    }
  }

  lemma FromMain(mb: MenuBuilder, to: Target)
    requires Keyed(mb) && MainUses(mb, to)
    ensures InReach(mb, to)
  {
    assert Climbs(mb.groups, None, []);
    if to.Group? {
      var g :| g in mb.groups && g.parent.None? && Visible(mb, g) && g.id == to.id;
      RootedUp(mb.groups, g);
    }
  }

  lemma FromGroup(mb: MenuBuilder, g: G.Row, to: Target)
    requires Keyed(mb) && g in mb.groups && Rooted(mb.groups, Some(g.id)) && GroupUses(mb, g, to)
    ensures InReach(mb, to)
  {
    RootedDown(mb.groups, g.id);
    if to.Group? && to != UpFrom(g.parent) && to.id != g.id {
      var c :| c in mb.groups && c.parent == Some(g.id) && Visible(mb, c) && c.id == to.id;
      RootedUp(mb.groups, c);
    }
  }

  lemma {:induction false} RouteStaysInReach(mb: MenuBuilder, lines: seq<Line>, p: seq<Target>, k: nat)
    requires Script(mb) == Some(lines) && !Jumps(mb) && Keyed(mb) && Route(lines, p) && k < |p|
    ensures InReach(mb, p[k])
    decreases k
  {
    if k > 0 {
      RouteStaysInReach(mb, lines, p, k - 1);
      assert Leads(lines, None, p[k - 1], p[k]);
      StepStaysInReach(mb, lines, p[k - 1], p[k]);
    }
  }

  lemma StartLeads(mb: MenuBuilder, r: G.Row)
    requires Script(mb).Some? && !Jumps(mb) && r in mb.groups && Visible(mb, r) && r.parent.None?
    ensures Leads(Script(mb).value, None, Start, Group(r.id))
  {
    assert Edge(mb, Start, Group(r.id));
    ScriptLeads(mb, Script(mb).value, Start, Group(r.id));
  }

  lemma ParentLeads(mb: MenuBuilder, p: G.Row, c: G.Row)
    requires Script(mb).Some? && !Jumps(mb) && p in mb.groups && c in mb.groups
    requires Visible(mb, p) && Visible(mb, c) && c.parent == Some(p.id)
    ensures Leads(Script(mb).value, None, Group(p.id), Group(c.id))
  {
    assert GroupUses(mb, p, Group(c.id));
    assert Edge(mb, Group(p.id), Group(c.id));
    ScriptLeads(mb, Script(mb).value, Group(p.id), Group(c.id));
  }

  lemma {:induction false} RootedIsReachable(mb: MenuBuilder, g: nat, chain: seq<nat>) returns (r: G.Row)
    requires Script(mb).Some? && !Jumps(mb) && Climbs(mb.groups, Some(g), chain) && Populated(mb.groups, mb.images, g)
    ensures r in mb.groups && r.id == g && Visible(mb, r)
    ensures Reachable(Script(mb).value, Group(g))
    decreases |chain|
  {
    r :| r in mb.groups && r.id == g && r.enabled && Climbs(mb.groups, r.parent, chain[1..]);
    var lines := Script(mb).value;
    if r.parent.None? {
      ReachStart(lines);
      StartLeads(mb, r);
      ReachOn(lines, Start, Group(g));
    } else {
      var p := r.parent.value;
      assert Visible(mb, r);
      ParentPopulated(mb, p);
      var row := RootedIsReachable(mb, p, chain[1..]);
      ParentLeads(mb, row, r);
      ReachOn(lines, Group(p), Group(g));
    }
  }

  lemma ReachableFromIff(mb: MenuBuilder, i: Image)
    requires Script(mb).Some? && !Jumps(mb) && Keyed(mb) && i in mb.images && i.enabled
    ensures Reachable(Script(mb).value, Iso(i.id)) <==> Rooted(mb.groups, i.group)
  {
    var lines := Script(mb).value;
    if p: seq<Target> :| Route(lines, p) && p[|p| - 1] == Iso(i.id) {
      RouteStaysInReach(mb, lines, p, |p| - 1);
    }
    if chain: seq<nat> :| Climbs(mb.groups, i.group, chain) {
      if i.group.None? {
        ReachStart(lines);
        assert Edge(mb, Start, Iso(i.id));
        ScriptLeads(mb, lines, Start, Iso(i.id));
        ReachOn(lines, Start, Iso(i.id));
      } else {
        var g := i.group.value;
        PopulatedUnfolds(mb.groups, mb.images, g);
        var row := RootedIsReachable(mb, g, chain);
        assert GroupUses(mb, row, Iso(i.id));
        assert Edge(mb, Group(g), Iso(i.id));
        ScriptLeads(mb, lines, Group(g), Iso(i.id));
        ReachOn(lines, Group(g), Iso(i.id));
      }
    }
  }

  /** The main menu leads to an enabled image exactly when its groups are present and enabled up to a root. */
  lemma {:induction false} ReachableIff(mb: MenuBuilder, i: Image)
    requires Keyed(mb) && i in mb.images && i.enabled
    ensures var script := Script(mb);
            script.Some? && !Jumps(mb) ==> (Reachable(script.value, Iso(i.id)) <==> Rooted(mb.groups, i.group))
  {
    if Script(mb).Some? && !Jumps(mb) {
      ReachableFromIff(mb, i);
    }
  }
}
