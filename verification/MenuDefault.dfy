/** What the main menu preselects, read off the lines of the script. */
module MenuDefault {
  import opened Models
  import opened MenuTree
  import opened Menu
  import G = Groups

  predicate Presets(lines: seq<Line>, t: Target) {
    exists l <- lines :: l.Choose? && l.preset == Some(t)
  }

  predicate PresetsNone(lines: seq<Line>) {
    forall l <- lines :: l.Choose? ==> l.preset.None?
  }

  lemma PresetsAppend(a: seq<Line>, b: seq<Line>, t: Target)
    ensures Presets(a + b, t) <==> Presets(a, t) || Presets(b, t)
    ensures PresetsNone(a + b) <==> PresetsNone(a) && PresetsNone(b)
  {
    assert forall l :: l in a + b <==> l in a || l in b;
  }

  lemma {:induction false} GroupMenusPresetNone(mb: MenuBuilder, groups: seq<G.Row>)
    requires GroupMenus(mb, groups).Some?
    ensures PresetsNone(GroupMenus(mb, groups).value)
    decreases |groups|
  {
    if groups != [] {
      var n := |groups| - 1;
      GroupMenusPresetNone(mb, groups[..n]);
      if GroupMenus(mb, groups).value != GroupMenus(mb, groups[..n]).value {
        GroupMenuPresetsNone(mb, groups[n]);
        PresetsAppend(GroupMenus(mb, groups[..n]).value, GroupMenu(mb, groups[n]), Start);
      }
    }
  }

  lemma GroupMenuPresetsNone(mb: MenuBuilder, g: G.Row)
    ensures PresetsNone(GroupMenu(mb, g))
  {
    var items := GroupItems(VisibleUnder(mb, mb.groups, Some(g.id))) + ImageItems(Listed(mb.images, Some(g.id)));
    assert GroupMenu(mb, g) == [Label(Group(g.id))] + (items + ([Item(UpFrom(g.parent))] + Closing(None, Group(g.id))));
  }

  lemma {:induction false} BootSectionsPresetNone(images: seq<Image>)
    ensures PresetsNone(BootSections(images))
    decreases |images|
  {
    if images != [] {
      BootSectionsPresetNone(images[..|images| - 1]);
    }
  }

  lemma {:induction false} ToolSectionsPresetNone(tools: seq<string>)
    ensures PresetsNone(ToolSections(tools))
    decreases |tools|
  {
    if tools != [] {
      ToolSectionsPresetNone(tools[..|tools| - 1]);
    }
  }

  lemma FooterPresetsNone(mb: MenuBuilder)
    ensures PresetsNone(Footer(mb))
  {
    ToolSectionsPresetNone(mb.tools);
  }

  lemma MainMenuPresets(mb: MenuBuilder, t: Target)
    ensures Presets(MainMenu(mb), t) <==> t == MainDefault(mb)
    ensures forall l <- MainMenu(mb) :: l.Choose? && l.preset.Some? ==> l.otherwise == Start
  {
    var groups, images := VisibleUnder(mb, mb.groups, None), Listed(mb.images, None);
    var front := [Label(Start)] + ToolsItem(mb) + (GroupItems(groups) + ImageItems(images));
    ItemsPresetNone([Label(Start)] + ToolsItem(mb), groups, images);
    assert MainMenu(mb) == front + Closing(Some(MainDefault(mb)), Start);
    ClosingPresets(front, MainDefault(mb), t);
  }

  lemma ItemsPresetNone(top: seq<Line>, groups: seq<G.Row>, images: seq<Image>)
    requires forall l <- top :: !l.Choose?
    ensures PresetsNone(top + (GroupItems(groups) + ImageItems(images)))
  {
  }

  lemma ClosingPresets(front: seq<Line>, preset: Target, t: Target)
    requires PresetsNone(front)
    ensures Presets(front + Closing(Some(preset), Start), t) <==> t == preset
    ensures forall l <- front + Closing(Some(preset), Start) :: l.Choose? && l.preset.Some? ==> l.otherwise == Start
  {
    var end := Closing(Some(preset), Start);
    PresetsAppend(front, end, t);
    assert end[3] in end;
  }

  lemma ScriptPresets(mb: MenuBuilder, t: Target)
    requires Script(mb).Some?
    ensures var script := Script(mb).value;
            && (Presets(script, t) <==> !HasEnabledImage(mb, mb.nextBootImageID) && t == MainDefault(mb))
            && forall l <- script :: l.Choose? && l.preset.Some? ==> l.otherwise == Start
  {
    var menus, sections := GroupMenus(mb, mb.groups).value, BootSections(mb.images);
    var top := if HasEnabledImage(mb, mb.nextBootImageID) then [Goto(Iso(mb.nextBootImageID))] else MainMenu(mb);
    GroupMenusPresetNone(mb, mb.groups);
    BootSectionsPresetNone(mb.images);
    FooterPresetsNone(mb);
    MainMenuPresets(mb, t);
    PresetsAppend(top, menus, t);
    PresetsAppend(top + menus, sections, t);
    PresetsAppend(top + menus + sections, Footer(mb), t);
  }

  // ---- Which one it is ----

  /** The first group of the table that is shown in the main menu. */
  ghost predicate FirstRoot(mb: MenuBuilder, k: nat) {
    && k < |mb.groups| && mb.groups[k].parent.None? && Visible(mb, mb.groups[k])
    && forall j | 0 <= j < k :: mb.groups[j].parent.None? ==> !Visible(mb, mb.groups[j])
  }

  ghost predicate NoRoot(mb: MenuBuilder) {
    forall g <- mb.groups :: g.parent.None? ==> !Visible(mb, g)
  }

  predicate Ungrouped(mb: MenuBuilder, i: Image) {
    i in mb.images && i.enabled && i.group.None?
  }

  lemma {:induction false} FirstShown(mb: MenuBuilder, groups: seq<G.Row>, k: nat)
    requires k < |groups| && groups[k].parent.None? && Visible(mb, groups[k])
    requires forall j | 0 <= j < k :: groups[j].parent.None? ==> !Visible(mb, groups[j])
    ensures VisibleUnder(mb, groups, None) != [] && VisibleUnder(mb, groups, None)[0] == groups[k]
    decreases |groups|
  {
    var n := |groups| - 1;
    if k < n {
      FirstShown(mb, groups[..n], k);
    } else {
      NoneShown(mb, groups[..n]);
    }
  }

  lemma {:induction false} NoneShown(mb: MenuBuilder, groups: seq<G.Row>)
    requires forall g <- groups :: g.parent.None? ==> !Visible(mb, g)
    ensures VisibleUnder(mb, groups, None) == []
    decreases |groups|
  {
    if groups != [] {
      var n := |groups| - 1;
      assert groups[n] in groups && forall g <- groups[..n] :: g in groups;
      NoneShown(mb, groups[..n]);
    }
  }

  /** Names are ordered by their first different character, a name before its own continuations. */
  lemma {:induction false} BeforeIff(a: string, b: string)
    ensures Before(a, b) <==>
            || (|a| < |b| && a == b[..|a|])
            || exists n | 0 <= n < |a| && n < |b| :: a[..n] == b[..n] && a[n] < b[n]
    decreases |a|
  {
    if a != "" && b != "" {
      if a[0] == b[0] {
        SameHead(a, b);
        BeforeIff(a[1..], b[1..]);
      } else if a[0] < b[0] {
        assert a[..0] == b[..0];
      }
    }
  }

  lemma SameHead(a: string, b: string)
    requires a != "" && b != "" && a[0] == b[0]
    ensures (|a| < |b| && a == b[..|a|]) <==> (|a[1..]| < |b[1..]| && a[1..] == b[1..][..|a[1..]|])
    ensures (exists n | 0 <= n < |a| && n < |b| :: a[..n] == b[..n] && a[n] < b[n]) <==>
            (exists n | 0 <= n < |a[1..]| && n < |b[1..]| :: a[1..][..n] == b[1..][..n] && a[1..][n] < b[1..][n])
  {
    assert a == [a[0]] + a[1..] && b == [b[0]] + b[1..];
    if n :| 0 <= n < |a| && n < |b| && a[..n] == b[..n] && a[n] < b[n] {
      assert a[1..][..n - 1] == a[..n][1..] && b[1..][..n - 1] == b[..n][1..] && a[1..][n - 1] < b[1..][n - 1];
    }
    if n :| 0 <= n < |a[1..]| && n < |b[1..]| && a[1..][..n] == b[1..][..n] && a[1..][n] < b[1..][n] {
      assert a[..n + 1] == [a[0]] + a[1..][..n] && b[..n + 1] == [b[0]] + b[1..][..n] && a[n + 1] < b[n + 1];
    }
  }

  lemma {:induction false} NotBeforeTwice(a: string, b: string, c: string)
    requires !Before(b, a) && !Before(c, b)
    ensures !Before(c, a)
    decreases |a|
  {
    if a != "" && b != "" && c != "" && a[0] == b[0] == c[0] {
      NotBeforeTwice(a[1..], b[1..], c[1..]);
    }
  }

  lemma {:induction false} FirstIsLeast(images: seq<Image>, k: nat)
    requires NameOrder(images) && k < |images|
    ensures !Before(images[k].sortKey, images[0].sortKey)
    decreases k
  {
    if k == 0 {
      NotBeforeItself(images[0].sortKey);
    } else {
      FirstIsLeast(images, k - 1);
      NotBeforeTwice(images[0].sortKey, images[k - 1].sortKey, images[k].sortKey);
    }
  }

  lemma {:induction false} NotBeforeItself(a: string)
    ensures !Before(a, a)
    decreases |a|
  {
    if a != "" {
      NotBeforeItself(a[1..]);
    }
  }

  lemma FirstImage(images: seq<Image>)
    requires Listed(images, None) != []
    ensures var i := Listed(images, None)[0];
            && i in images && i.enabled && i.group.None?
            && forall j <- images | j.enabled && j.group.None? :: !Before(j.sortKey, i.sortKey)
  {
    var own := Listed(images, None);
    SortingOrders(ImagesIn(images, None));
    assert own[0] in own;
    forall j <- images | j.enabled && j.group.None? ensures !Before(j.sortKey, own[0].sortKey) {
      assert j in own;
      var k :| 0 <= k < |own| && own[k] == j;
      FirstIsLeast(own, k);
    }
  }

  /** No next boot, no installed node, and no theme that names the local disk, the shell or a reboot. */
  predicate Undecided(mb: MenuBuilder) {
    mb.nextBootImageID == 0 && !mb.forceLocalDefault && mb.defaultItem !in [Some(Local), Some(Shell), Some(Reboot)]
  }

  /** Any preset of a script is in a line that goes back to the main menu when nothing is chosen. */
  lemma PresetsLoop(mb: MenuBuilder, t: Target)
    requires Script(mb).Some?
    ensures Presets(Script(mb).value, t) <==> Choose(Some(t), Start) in Script(mb).value
  {
    ScriptPresets(mb, t);
  }

  /** A next boot that is not enabled is the preset itself; behind one that is, nothing is preset. */
  lemma NextBootPreset(mb: MenuBuilder, t: Target)
    requires Script(mb).Some? && mb.nextBootImageID != 0
    ensures Presets(Script(mb).value, t) <==>
            t == Iso(mb.nextBootImageID) && forall i <- mb.images | i.enabled :: i.id != mb.nextBootImageID
  {
    ScriptPresets(mb, t);
  }

  /** An installed node without a next boot falls to its local disk, whatever the groups, the images and the theme. */
  lemma InstalledPreset(mb: MenuBuilder, t: Target)
    requires Script(mb).Some? && mb.nextBootImageID == 0 && mb.forceLocalDefault
    ensures Presets(Script(mb).value, t) <==> t == Local
    ensures Choose(Some(Local), Start) in Script(mb).value
  {
    ScriptPresets(mb, t);
    PresetsLoop(mb, Local);
    ScriptPresets(mb, Local);
  }

  /** Any other without a next boot falls to what its theme names, if that is the local disk, the shell or a reboot. */
  lemma ThemePreset(mb: MenuBuilder, t: Target)
    requires Script(mb).Some? && mb.nextBootImageID == 0 && !mb.forceLocalDefault
    requires mb.defaultItem in [Some(Local), Some(Shell), Some(Reboot)]
    ensures Presets(Script(mb).value, t) <==> mb.defaultItem == Some(t)
  {
    ScriptPresets(mb, t);
  }

  /** Otherwise to the first root group shown, in the order of the table. */
  lemma GroupPreset(mb: MenuBuilder, k: nat, t: Target)
    requires Script(mb).Some? && Undecided(mb) && FirstRoot(mb, k)
    ensures Presets(Script(mb).value, t) <==> t == Group(mb.groups[k].id)
  {
    ScriptPresets(mb, t);
    FirstRootIsDefault(mb, k);
  }

  lemma FirstRootIsDefault(mb: MenuBuilder, k: nat)
    requires Undecided(mb) && FirstRoot(mb, k)
    ensures MainDefault(mb) == Group(mb.groups[k].id)
  {
    FirstShown(mb, mb.groups, k);
  }

  /** Without one, to an ungrouped image that no other precedes by name. */
  lemma ImagePreset(mb: MenuBuilder, t: Target)
    requires Script(mb).Some? && Undecided(mb) && NoRoot(mb) && exists i :: Ungrouped(mb, i)
    ensures Presets(Script(mb).value, t) ==>
              exists i :: Ungrouped(mb, i) && t == Iso(i.id) &&
                          forall j | Ungrouped(mb, j) :: !Before(j.sortKey, i.sortKey)
    ensures exists i :: Ungrouped(mb, i) && Presets(Script(mb).value, Iso(i.id))
  {
    var i := FirstImageIsDefault(mb);
    ScriptPresets(mb, t);
    ScriptPresets(mb, Iso(i.id));
  }

  lemma FirstImageIsDefault(mb: MenuBuilder) returns (i: Image)
    requires Undecided(mb) && NoRoot(mb) && exists i :: Ungrouped(mb, i)
    ensures Ungrouped(mb, i) && MainDefault(mb) == Iso(i.id)
    ensures forall j | Ungrouped(mb, j) :: !Before(j.sortKey, i.sortKey)
  {
    var own := Listed(mb.images, None);
    var some :| Ungrouped(mb, some);
    assert some in own;
    NoneShown(mb, mb.groups);
    FirstImage(mb.images);
    i := own[0];
  }

  /** And without those, to the local disk. */
  lemma LocalPreset(mb: MenuBuilder, t: Target)
    requires Script(mb).Some? && Undecided(mb) && NoRoot(mb) && forall i :: !Ungrouped(mb, i)
    ensures Presets(Script(mb).value, t) <==> t == Local
  {
    NoneShown(mb, mb.groups);
    assert forall i :: i in Listed(mb.images, None) ==> Ungrouped(mb, i);
    NoneListed(Listed(mb.images, None));
    ScriptPresets(mb, t);
  }

  lemma NoneListed(images: seq<Image>)
    ensures images == [] || exists i :: i in images
  {
    if images != [] {
      assert images[0] in images;
    }
  }
}
