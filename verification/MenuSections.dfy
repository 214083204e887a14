/** The sections of the menu script in order, and the items of its menus in order. */
module MenuSections {
  import opened Models
  import opened MenuTree
  import opened Menu
  import G = Groups

  /** The labels of these lines, in order: control that leaves a section at its end falls into the next. */
  function Labels(lines: seq<Line>): seq<Target> {
    if lines == [] then []
    else
      var n := |lines| - 1;
      Labels(lines[..n]) + (if lines[n].Label? then [lines[n].target] else [])
  }

  /** What the user can choose in these lines, in order. */
  function Choices(lines: seq<Line>): seq<Target> {
    if lines == [] then []
    else
      var n := |lines| - 1;
      Choices(lines[..n]) + (if lines[n].Item? then [lines[n].target] else [])
  }

  lemma {:induction false} LabelsAppend(a: seq<Line>, b: seq<Line>)
    ensures Labels(a + b) == Labels(a) + Labels(b)
    decreases |b|
  {
    if b == [] {
      assert a + b == a;
    } else {
      var n := |b| - 1;
      assert (a + b)[..|a| + n] == a + b[..n] && (a + b)[|a| + n] == b[n];
      LabelsAppend(a, b[..n]);
    }
  }

  lemma {:induction false} ChoicesAppend(a: seq<Line>, b: seq<Line>)
    ensures Choices(a + b) == Choices(a) + Choices(b)
    decreases |b|
  {
    if b == [] {
      assert a + b == a;
    } else {
      var n := |b| - 1;
      assert (a + b)[..|a| + n] == a + b[..n] && (a + b)[|a| + n] == b[n];
      ChoicesAppend(a, b[..n]);
    }
  }

  lemma {:induction false} NoLabels(lines: seq<Line>)
    requires forall l <- lines :: !l.Label?
    ensures Labels(lines) == []
    decreases |lines|
  {
    if lines != [] {
      assert lines[|lines| - 1] in lines;
      NoLabels(lines[..|lines| - 1]);
    }
  }

  lemma OneLabel(t: Target, body: seq<Line>)
    requires forall l <- body :: !l.Label?
    ensures Labels([Label(t)] + body) == [t]
  {
    NoLabels(body);
    LabelsAppend([Label(t)], body);
    assert [Label(t)][..0] == [];
  }

  // ---- The sections ----

  ghost function MenusShown(mb: MenuBuilder, groups: seq<G.Row>): seq<Target> {
    if groups == [] then []
    else
      var n := |groups| - 1;
      MenusShown(mb, groups[..n]) + (if Visible(mb, groups[n]) then [Group(groups[n].id)] else [])
  }

  function ImagesShown(images: seq<Image>): seq<Target> {
    if images == [] then []
    else
      var n := |images| - 1;
      ImagesShown(images[..n]) + (if images[n].enabled then [Iso(images[n].id)] else [])
  }

  function ToolTargets(tools: seq<string>): seq<Target> {
    seq(|tools|, k requires 0 <= k < |tools| => Tool(tools[k]))
  }

  lemma GroupBodyLabels(mb: MenuBuilder, g: G.Row)
    ensures Labels(GroupMenu(mb, g)) == [Group(g.id)]
  {
    OneLabel(Group(g.id), GroupBody(mb, g));
  }

  lemma {:induction false} GroupMenusLabels(mb: MenuBuilder, groups: seq<G.Row>)
    requires GroupMenus(mb, groups).Some?
    ensures Labels(GroupMenus(mb, groups).value) == MenusShown(mb, groups)
    decreases |groups|
  {
    if groups != [] {
      var n := |groups| - 1;
      GroupMenusLabels(mb, groups[..n]);
      if Visible(mb, groups[n]) {
        GroupBodyLabels(mb, groups[n]);
        LabelsAppend(GroupMenus(mb, groups[..n]).value, GroupMenu(mb, groups[n]));
      }
    }
  }

  lemma {:induction false} BootSectionsLabels(images: seq<Image>)
    ensures Labels(BootSections(images)) == ImagesShown(images)
    decreases |images|
  {
    if images != [] {
      var n := |images| - 1;
      BootSectionsLabels(images[..n]);
      if images[n].enabled {
        OneLabel(Iso(images[n].id), BootBody(images[n]));
        LabelsAppend(BootSections(images[..n]), BootSection(images[n]));
      } else {
        assert BootSections(images) == BootSections(images[..n]);
      }
    }
  }

  lemma {:induction false} ToolSectionsLabels(tools: seq<string>)
    ensures Labels(ToolSections(tools)) == ToolTargets(tools)
    decreases |tools|
  {
    if tools != [] {
      var n := |tools| - 1;
      ToolSectionsLabels(tools[..n]);
      OneLabel(Tool(tools[n]), [Try(Failed)]);
      assert [Label(Tool(tools[n]))] + [Try(Failed)] == [Label(Tool(tools[n])), Try(Failed)];
      LabelsAppend(ToolSections(tools[..n]), [Label(Tool(tools[n])), Try(Failed)]);
      assert ToolTargets(tools) == ToolTargets(tools[..n]) + [Tool(tools[n])];
    }
  }

  lemma EndingLabels()
    ensures Labels(ENDINGS) == [Local, Shell, Reboot, Failed]
  {
    OneLabel(Local, [Command]);
    OneLabel(Shell, [Command]);
    OneLabel(Reboot, [Command]);
    OneLabel(Failed, [Goto(Start)]);
    var a, b := [Label(Local)] + [Command], [Label(Shell)] + [Command];
    var c, d := [Label(Reboot)] + [Command], [Label(Failed)] + [Goto(Start)];
    assert ENDINGS == a + b + c + d;
    LabelsAppend(a, b);
    LabelsAppend(a + b, c);
    LabelsAppend(a + b + c, d);
  }

  lemma FooterLabels(mb: MenuBuilder)
    ensures Labels(Footer(mb)) ==
            (if mb.tools != [] then [Tools, Back] else []) + ToolTargets(mb.tools) + [Local, Shell, Reboot, Failed]
  {
    var top := if mb.tools != [] then ToolsMenu(mb.tools) + [Label(Back), Goto(Start)] else [];
    if mb.tools != [] {
      ToolsMenuLabels(mb.tools);
    }
    ToolSectionsLabels(mb.tools);
    EndingLabels();
    LabelsAppend(top, ToolSections(mb.tools));
    LabelsAppend(top + ToolSections(mb.tools), ENDINGS);
  }

  lemma ToolsMenuLabels(tools: seq<string>)
    ensures Labels(ToolsMenu(tools) + [Label(Back), Goto(Start)]) == [Tools, Back]
  {
    var body := ToolItems(tools) + [Item(Back), Choose(None, Start), GotoSelected];
    assert ToolsMenu(tools) == [Label(Tools)] + body;
    OneLabel(Tools, body);
    OneLabel(Back, [Goto(Start)]);
    assert [Label(Back)] + [Goto(Start)] == [Label(Back), Goto(Start)];
    LabelsAppend(ToolsMenu(tools), [Label(Back), Goto(Start)]);
  }

  /** The sections of a script: the main menu, unless a next boot jumps over it; the visible groups and the enabled
      images in the order of their tables; the tools menu and the tools, if there are any; and the fixed endings. */
  lemma SectionsAre(mb: MenuBuilder)
    requires Script(mb).Some?
    ensures Labels(Script(mb).value) ==
            (if HasEnabledImage(mb, mb.nextBootImageID) then [] else [Start])
            + MenusShown(mb, mb.groups) + ImagesShown(mb.images)
            + ((if mb.tools != [] then [Tools, Back] else []) + ToolTargets(mb.tools) + [Local, Shell, Reboot, Failed])
  {
    var top := if HasEnabledImage(mb, mb.nextBootImageID) then [Goto(Iso(mb.nextBootImageID))] else MainMenu(mb);
    var menus, sections := GroupMenus(mb, mb.groups).value, BootSections(mb.images);
    TopLabels(mb, top);
    GroupMenusLabels(mb, mb.groups);
    BootSectionsLabels(mb.images);
    FooterLabels(mb);
    LabelsAppend(top, menus);
    LabelsAppend(top + menus, sections);
    LabelsAppend(top + menus + sections, Footer(mb));
  }

  lemma TopLabels(mb: MenuBuilder, top: seq<Line>)
    requires top == if HasEnabledImage(mb, mb.nextBootImageID) then [Goto(Iso(mb.nextBootImageID))] else MainMenu(mb)
    ensures Labels(top) == if HasEnabledImage(mb, mb.nextBootImageID) then [] else [Start]
  {
    if HasEnabledImage(mb, mb.nextBootImageID) {
      NoLabels(top);
    } else {
      OneLabel(Start, MainBody(mb));
    }
  }

  // ---- The items ----

  lemma {:induction false} ItemsOnly(lines: seq<Line>, targets: seq<Target>)
    requires |lines| == |targets| && forall k | 0 <= k < |lines| :: lines[k] == Item(targets[k])
    ensures Choices(lines) == targets
    decreases |lines|
  {
    if lines != [] {
      var n := |lines| - 1;
      ItemsOnly(lines[..n], targets[..n]);
      assert targets == targets[..n] + [targets[n]];
    }
  }

  function GroupTargets(groups: seq<G.Row>): (targets: seq<Target>)
    ensures |targets| == |groups| && forall k | 0 <= k < |groups| :: targets[k] == Group(groups[k].id)
  {
    seq(|groups|, k requires 0 <= k < |groups| => Group(groups[k].id))
  }

  function ImageTargets(images: seq<Image>): (targets: seq<Target>)
    ensures |targets| == |images| && forall k | 0 <= k < |images| :: targets[k] == Iso(images[k].id)
  {
    seq(|images|, k requires 0 <= k < |images| => Iso(images[k].id))
  }

  lemma ClosingChoices(preset: Option<Target>, again: Target)
    ensures Choices(Closing(preset, again)) == [Local, Shell, Reboot]
  {
    var items, rest := [Item(Local), Item(Shell), Item(Reboot)], [Choose(preset, again), GotoSelected];
    assert Closing(preset, again) == items + rest;
    ItemsOnly(items, [Local, Shell, Reboot]);
    assert rest[..1] == [rest[0]] && rest[..1][..0] == [];
    ChoicesAppend(items, rest);
  }

  lemma ListChoices(groups: seq<G.Row>, images: seq<Image>)
    ensures Choices(GroupItems(groups) + ImageItems(images)) == GroupTargets(groups) + ImageTargets(images)
  {
    ItemsOnly(GroupItems(groups), GroupTargets(groups));
    ItemsOnly(ImageItems(images), ImageTargets(images));
    ChoicesAppend(GroupItems(groups), ImageItems(images));
  }

  /** The main menu offers the tools, if there are any, the visible root groups, the ungrouped images by name, and the
      fixed three. */
  lemma MainChoices(mb: MenuBuilder)
    ensures Choices(MainBody(mb)) ==
            (if mb.tools != [] then [Tools] else []) + (GroupTargets(VisibleUnder(mb, mb.groups, None))
            + ImageTargets(Listed(mb.images, None))) + [Local, Shell, Reboot]
  {
    var groups, images := VisibleUnder(mb, mb.groups, None), Listed(mb.images, None);
    ItemsOnly(ToolsItem(mb), if mb.tools != [] then [Tools] else []);
    ListChoices(groups, images);
    ClosingChoices(Some(MainDefault(mb)), Start);
    ChoicesAppend(ToolsItem(mb), GroupItems(groups) + ImageItems(images));
    ChoicesAppend(ToolsItem(mb) + (GroupItems(groups) + ImageItems(images)), Closing(Some(MainDefault(mb)), Start));
  }

  /** A group's menu offers its visible children, its images by name, the way up, and the fixed three. */
  lemma GroupChoices(mb: MenuBuilder, g: G.Row)
    ensures Choices(GroupBody(mb, g)) ==
            GroupTargets(VisibleUnder(mb, mb.groups, Some(g.id))) + ImageTargets(Listed(mb.images, Some(g.id)))
            + ([if g.parent.Some? then Group(g.parent.value) else Start] + [Local, Shell, Reboot])
  {
    var groups, images := VisibleUnder(mb, mb.groups, Some(g.id)), Listed(mb.images, Some(g.id));
    var up, end := [Item(UpFrom(g.parent))], Closing(None, Group(g.id));
    ListChoices(groups, images);
    ItemsOnly(up, [UpFrom(g.parent)]);
    ClosingChoices(None, Group(g.id));
    ChoicesAppend(up, end);
    ChoicesAppend(GroupItems(groups) + ImageItems(images), up + end);
  }

  /** The tools menu offers each tool in order, and the way back. */
  lemma ToolChoices(tools: seq<string>)
    ensures Choices(ToolsMenu(tools)) == ToolTargets(tools) + [Back]
  {
    var head, rest := [Label(Tools)], [Choose(None, Start), GotoSelected];
    var items := ToolItems(tools) + [Item(Back)];
    assert ToolsMenu(tools) == head + items + rest;
    assert head[..0] == [] && rest[..1] == [rest[0]] && rest[..1][..0] == [];
    ItemsOnly(items, ToolTargets(tools) + [Back]);
    ChoicesAppend(head, items);
    ChoicesAppend(head + items, rest);
  }

  /** Groups are listed in the order of the table. */
  lemma {:induction false} ShownInOrder(mb: MenuBuilder, groups: seq<G.Row>, parent: Option<nat>, p: nat, q: nat)
    returns (j: nat, k: nat)
    requires p < q < |VisibleUnder(mb, groups, parent)|
    ensures j < k < |groups|
    ensures VisibleUnder(mb, groups, parent)[p] == groups[j] && VisibleUnder(mb, groups, parent)[q] == groups[k]
    decreases |groups|
  {
    var n := |groups| - 1;
    var front := VisibleUnder(mb, groups[..n], parent);
    if q < |front| {
      j, k := ShownInOrder(mb, groups[..n], parent, p, q);
    } else {
      assert front[p] in front;
      j :| 0 <= j < n && groups[..n][j] == front[p];
      k := n;
    }
  }
}
