/** The boot menu as a script of labels, menu items and jumps, built from the image groups and the images. */
module Menu {
  import opened Models
  import opened MenuTree
  import G = Groups

  datatype Target =
    Start | Group(id: nat) | Iso(id: nat) | Tools | Tool(name: string) | Back | Local | Shell | Reboot | Failed

  /** Lines that neither name nor use a label are Command. */
  datatype Line =
    | Label(target: Target)
    | Item(target: Target)
    | Goto(target: Target)
    | Choose(preset: Option<Target>, otherwise: Target)
    | GotoSelected
    | Try(otherwise: Target)
    | Command

  datatype MenuBuilder = MenuBuilder(
    images: seq<Image>, groups: seq<G.Row>, tools: seq<string>,
    defaultItem: Option<Target>, nextBootImageID: nat, forceLocalDefault: bool)

  // ---- What the script should be ----

  /** A group with something to boot gets a menu of its own. */
  ghost predicate Visible(mb: MenuBuilder, g: G.Row) {
    g.enabled && Populated(mb.groups, mb.images, g.id)
  }

  ghost function VisibleUnder(mb: MenuBuilder, groups: seq<G.Row>, parent: Option<nat>): (shown: seq<G.Row>)
    ensures forall g :: g in shown <==> g in groups && g.parent == parent && Visible(mb, g)
  {
    if groups == [] then []
    else
      var n := |groups| - 1;
      var front := VisibleUnder(mb, groups[..n], parent);
      assert groups == groups[..n] + [groups[n]];
      if groups[n].parent == parent && Visible(mb, groups[n]) then front + [groups[n]] else front
  }

  function GroupItems(groups: seq<G.Row>): (lines: seq<Line>)
    ensures |lines| == |groups| && forall k | 0 <= k < |groups| :: lines[k] == Item(Group(groups[k].id))
  {
    seq(|groups|, k requires 0 <= k < |groups| => Item(Group(groups[k].id)))
  }

  function ImageItems(images: seq<Image>): (lines: seq<Line>)
    ensures |lines| == |images| && forall k | 0 <= k < |images| :: lines[k] == Item(Iso(images[k].id))
  {
    seq(|images|, k requires 0 <= k < |images| => Item(Iso(images[k].id)))
  }

  predicate HasEnabledImage(mb: MenuBuilder, id: nat) {
    id != 0 && exists i <- mb.images :: i.id == id && i.enabled
  }

  function DefaultItem(mb: MenuBuilder, groups: seq<G.Row>, images: seq<Image>): Target {
    if mb.nextBootImageID > 0 then Iso(mb.nextBootImageID)
    else if mb.forceLocalDefault then Local
    else if mb.defaultItem.Some? && mb.defaultItem.value in {Local, Shell, Reboot} then mb.defaultItem.value
    else if groups != [] then Group(groups[0].id)
    else if images != [] then Iso(images[0].id)
    else Local
  }

  function Closing(preset: Option<Target>, again: Target): seq<Line> {
    [Item(Local), Item(Shell), Item(Reboot), Choose(preset, again), GotoSelected]
  }

  function ToolsItem(mb: MenuBuilder): seq<Line> {
    if mb.tools != [] then [Item(Tools)] else []
  }

  ghost function MainDefault(mb: MenuBuilder): Target {
    DefaultItem(mb, VisibleUnder(mb, mb.groups, None), Listed(mb.images, None))
  }

  ghost function MainBody(mb: MenuBuilder): seq<Line> {
    ToolsItem(mb)
    + (GroupItems(VisibleUnder(mb, mb.groups, None)) + ImageItems(Listed(mb.images, None)))
    + Closing(Some(MainDefault(mb)), Start)
  }

  ghost function MainMenu(mb: MenuBuilder): seq<Line> {
    [Label(Start)] + MainBody(mb)
  }

  function UpFrom(parent: Option<nat>): Target {
    if parent.Some? then Group(parent.value) else Start
  }

  ghost function GroupBody(mb: MenuBuilder, g: G.Row): seq<Line> {
    (GroupItems(VisibleUnder(mb, mb.groups, Some(g.id))) + ImageItems(Listed(mb.images, Some(g.id))))
    + ([Item(UpFrom(g.parent))] + Closing(None, Group(g.id)))
  }

  ghost function GroupMenu(mb: MenuBuilder, g: G.Row): seq<Line> {
    [Label(Group(g.id))] + GroupBody(mb, g)
  }

  /** The parent's name is read from its loaded row, which is nil when that row is gone. */
  predicate ParentPresent(mb: MenuBuilder, g: G.Row) {
    g.parent.Some? ==> exists p <- mb.groups :: p.id == g.parent.value
  }

  /** None when a nil parent is read. */
  ghost function GroupMenus(mb: MenuBuilder, groups: seq<G.Row>): Option<seq<Line>>
    decreases |groups|
  {
    if groups == [] then Some([])
    else
      var n := |groups| - 1;
      match GroupMenus(mb, groups[..n])
      case None => None
      case Some(front) =>
        if !Visible(mb, groups[n]) then Some(front)
        else if !ParentPresent(mb, groups[n]) then None
        else Some(front + GroupMenu(mb, groups[n]))
  }

  function BootBody(i: Image): seq<Line> {
    [if i.bootMethod in ["nbd", "nfs", "kernel"] then Try(Failed) else Command, Goto(UpFrom(i.group))]
  }

  function BootSection(i: Image): seq<Line> {
    [Label(Iso(i.id))] + BootBody(i)
  }

  function BootSections(images: seq<Image>): seq<Line> {
    if images == [] then []
    else
      var n := |images| - 1;
      BootSections(images[..n]) + (if images[n].enabled then BootSection(images[n]) else [])
  }

  function ToolItems(tools: seq<string>): (lines: seq<Line>)
    ensures |lines| == |tools| && forall k | 0 <= k < |tools| :: lines[k] == Item(Tool(tools[k]))
  {
    seq(|tools|, k requires 0 <= k < |tools| => Item(Tool(tools[k])))
  }

  function ToolSections(tools: seq<string>): seq<Line> {
    if tools == [] then []
    else ToolSections(tools[..|tools| - 1]) + [Label(Tool(tools[|tools| - 1])), Try(Failed)]
  }

  function ToolsMenu(tools: seq<string>): seq<Line> {
    [Label(Tools)] + ToolItems(tools) + [Item(Back), Choose(None, Start), GotoSelected]
  }

  const ENDINGS: seq<Line> :=
    [Label(Local), Command, Label(Shell), Command, Label(Reboot), Command, Label(Failed), Goto(Start)]

  function Footer(mb: MenuBuilder): seq<Line> {
    (if mb.tools != [] then ToolsMenu(mb.tools) + [Label(Back), Goto(Start)] else [])
    + ToolSections(mb.tools) + ENDINGS
  }

  ghost function Script(mb: MenuBuilder): Option<seq<Line>> {
    match GroupMenus(mb, mb.groups)
    case None => None
    case Some(menus) =>
      Some((if HasEnabledImage(mb, mb.nextBootImageID) then [Goto(Iso(mb.nextBootImageID))] else MainMenu(mb))
           + menus + BootSections(mb.images) + Footer(mb))
  }

  // ---- Building it ----

  /** The search ends from each enabled group directly below this one, or from each enabled root. */
  ghost predicate EndsUnder(mb: MenuBuilder, parent: Option<nat>) {
    forall c <- mb.groups | c.parent == parent && c.enabled :: Ends(mb.groups, mb.images, c.id)
  }

  /** Every search that building makes ends: those of the main menu, and those of each enabled group and its children,
      up to the group whose parent stops the building. */
  ghost predicate SearchesEnd(mb: MenuBuilder) {
    && (!HasEnabledImage(mb, mb.nextBootImageID) ==> EndsUnder(mb, None))
    && MenuSearchesEnd(mb)
  }

  ghost predicate MenuSearchesEnd(mb: MenuBuilder) {
    forall k | 0 <= k < |mb.groups| && mb.groups[k].enabled && GroupMenus(mb, mb.groups[..k]).Some? ::
      && Ends(mb.groups, mb.images, mb.groups[k].id)
      && (Visible(mb, mb.groups[k]) ==> EndsUnder(mb, Some(mb.groups[k].id)))
  }

  /** Groups grown by syncing, in whatever order they are listed, are such groups. */
  lemma SyncedSearchesEnd(mb: MenuBuilder, t: G.Table)
    requires G.Sound(t) && forall r <- mb.groups :: r in t.rows
    ensures SearchesEnd(mb)
  {
    forall g ensures Ends(mb.groups, mb.images, g) {
      SoundHasNoCycle(t, mb.groups, g);
      SearchEndsIff(mb.groups, g);
    }
  }

  method GetVisible(mb: MenuBuilder, parent: Option<nat>) returns (shown: seq<G.Row>)
    requires EndsUnder(mb, parent)
    ensures shown == VisibleUnder(mb, mb.groups, parent)
  {
    shown := [];
    for k := 0 to |mb.groups|
      invariant shown == VisibleUnder(mb, mb.groups[..k], parent)
    {
      var g := mb.groups[k];
      assert mb.groups[..k + 1][..k] == mb.groups[..k];
      if g.parent == parent && g.enabled {
        ghost var depth :| Search(mb.groups, mb.images, g.id, depth).Some?;
        var populated := GroupHasImages(mb.groups, mb.images, g.id, depth);
        if populated {
          shown := shown + [g];
        }
      }
    }
    assert mb.groups[..|mb.groups|] == mb.groups;
  }

  method WriteItems(top: seq<Line>, groups: seq<G.Row>, images: seq<Image>) returns (lines: seq<Line>)
    ensures lines == top + GroupItems(groups) + ImageItems(images)
  {
    lines := top;
    for k := 0 to |groups|
      invariant lines == top + GroupItems(groups)[..k]
    {
      lines := lines + [Item(Group(groups[k].id))];
      assert GroupItems(groups)[..k + 1] == GroupItems(groups)[..k] + [GroupItems(groups)[k]];
    }
    assert lines == top + GroupItems(groups);
    for k := 0 to |images|
      invariant lines == top + GroupItems(groups) + ImageItems(images)[..k]
    {
      lines := lines + [Item(Iso(images[k].id))];
      assert ImageItems(images)[..k + 1] == ImageItems(images)[..k] + [ImageItems(images)[k]];
    }
  }

  lemma Regroup(a: seq<Line>, b: seq<Line>, c: seq<Line>, d: seq<Line>, e: seq<Line>)
    ensures a + b + c + d + e == a + (b + (c + d) + e) == a + ((b + c) + (d + e))
  {
  }

  method BuildMainMenu(mb: MenuBuilder) returns (lines: seq<Line>)
    requires EndsUnder(mb, None)
    ensures lines == MainMenu(mb)
  {
    lines := [Label(Start)];
    var groups := GetVisible(mb, None);
    var images := GetImages(mb.images, None);
    if |mb.tools| > 0 {
      lines := lines + [Item(Tools)];
    }
    assert lines == [Label(Start)] + ToolsItem(mb);
    lines := WriteItems(lines, groups, images);
    lines := lines + [Item(Local), Item(Shell), Item(Reboot), Choose(Some(DefaultItem(mb, groups, images)), Start),
                      GotoSelected];
    Regroup([Label(Start)], ToolsItem(mb), GroupItems(groups), ImageItems(images),
            Closing(Some(MainDefault(mb)), Start));
  }

  method BuildGroupMenu(mb: MenuBuilder, g: G.Row) returns (lines: seq<Line>)
    requires EndsUnder(mb, Some(g.id))
    ensures lines == GroupMenu(mb, g)
  {
    lines := [Label(Group(g.id))];
    var children := GetVisible(mb, Some(g.id));
    var images := GetImages(mb.images, Some(g.id));
    lines := WriteItems(lines, children, images);
    ghost var items := lines;
    if g.parent.Some? {
      lines := lines + [Item(Group(g.parent.value))];
    } else {
      lines := lines + [Item(Start)];
    }
    assert lines == items + [Item(UpFrom(g.parent))];
    lines := lines + [Item(Local), Item(Shell), Item(Reboot), Choose(None, Group(g.id)), GotoSelected];
    Regroup([Label(Group(g.id))], GroupItems(children), ImageItems(images), [Item(UpFrom(g.parent))],
            Closing(None, Group(g.id)));
  }

  lemma MenusNext(mb: MenuBuilder, k: nat)
    requires k < |mb.groups|
    ensures GroupMenus(mb, mb.groups[..k + 1]) ==
            match GroupMenus(mb, mb.groups[..k])
            case None => None
            case Some(front) =>
              if !Visible(mb, mb.groups[k]) then Some(front)
              else if !ParentPresent(mb, mb.groups[k]) then None
              else Some(front + GroupMenu(mb, mb.groups[k]))
  {
    assert mb.groups[..k + 1][..k] == mb.groups[..k];
  }

  /** None when it reads through a nil parent. */
  method BuildGroupMenus(mb: MenuBuilder) returns (result: Option<seq<Line>>)
    requires MenuSearchesEnd(mb)
    ensures result == GroupMenus(mb, mb.groups)
  {
    var lines: seq<Line> := [];
    for k := 0 to |mb.groups|
      invariant GroupMenus(mb, mb.groups[..k]) == Some(lines)
    {
      var g := mb.groups[k];
      MenusNext(mb, k);
      var populated := false;
      if g.enabled {
        ghost var depth :| Search(mb.groups, mb.images, g.id, depth).Some?;
        populated := GroupHasImages(mb.groups, mb.images, g.id, depth);
      }
      if populated {
        var menu := BuildGroupMenu(mb, g);
        if !ParentPresent(mb, g) {
          PanicStays(mb, mb.groups, k + 1);
          return None;
        }
        lines := lines + menu;
      }
    }
    assert mb.groups[..|mb.groups|] == mb.groups;
    result := Some(lines);
  }

  lemma {:induction false} PanicStays(mb: MenuBuilder, groups: seq<G.Row>, k: nat)
    requires k <= |groups| && GroupMenus(mb, groups[..k]).None?
    ensures GroupMenus(mb, groups).None?
    decreases |groups|
  {
    if k < |groups| {
      assert groups[..|groups| - 1][..k] == groups[..k];
      PanicStays(mb, groups[..|groups| - 1], k);
    } else {
      assert groups[..k] == groups;
    }
  }

  method BuildImageBootSections(mb: MenuBuilder) returns (lines: seq<Line>)
    ensures lines == BootSections(mb.images)
  {
    lines := [];
    for k := 0 to |mb.images|
      invariant lines == BootSections(mb.images[..k])
    {
      var i := mb.images[k];
      assert mb.images[..k + 1][..k] == mb.images[..k];
      if i.enabled {
        ghost var front := lines;
        lines := lines + [Label(Iso(i.id))];
        if i.bootMethod in ["nbd", "nfs", "kernel"] {
          lines := lines + [Try(Failed)];
        } else {
          lines := lines + [Command];
        }
        if i.group.Some? {
          lines := lines + [Goto(Group(i.group.value))];
        } else {
          lines := lines + [Goto(Start)];
        }
        assert lines == front + BootSection(i);
      }
    }
    assert mb.images[..|mb.images|] == mb.images;
  }

  method BuildFooter(mb: MenuBuilder) returns (lines: seq<Line>)
    ensures lines == Footer(mb)
  {
    lines := [];
    if |mb.tools| > 0 {
      lines := [Label(Tools)];
      for k := 0 to |mb.tools|
        invariant lines == [Label(Tools)] + ToolItems(mb.tools)[..k]
      {
        lines := lines + [Item(Tool(mb.tools[k]))];
        assert ToolItems(mb.tools)[..k + 1] == ToolItems(mb.tools)[..k] + [ToolItems(mb.tools)[k]];
      }
      assert lines == [Label(Tools)] + ToolItems(mb.tools);
      lines := lines + [Item(Back), Choose(None, Start), GotoSelected];
      assert lines == ToolsMenu(mb.tools);
      lines := lines + [Label(Back), Goto(Start)];
    }
    ghost var top := lines;
    for k := 0 to |mb.tools|
      invariant lines == top + ToolSections(mb.tools[..k])
    {
      assert mb.tools[..k + 1][..k] == mb.tools[..k];
      lines := lines + [Label(Tool(mb.tools[k])), Try(Failed)];
    }
    assert mb.tools[..|mb.tools|] == mb.tools;
    lines := lines + ENDINGS;
  }

  method Build(mb: MenuBuilder) returns (script: Option<seq<Line>>)
    requires SearchesEnd(mb)
    ensures script == Script(mb)
  {
    var lines: seq<Line>;
    if HasEnabledImage(mb, mb.nextBootImageID) {
      lines := [Goto(Iso(mb.nextBootImageID))];
    } else {
      lines := BuildMainMenu(mb);
    }
    var menus := BuildGroupMenus(mb);
    if menus.None? {
      return None;
    }
    var sections := BuildImageBootSections(mb);
    var footer := BuildFooter(mb);
    script := Some(lines + menus.value + sections + footer);
  }
}
