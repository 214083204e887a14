# Bootimus: a verified model of its core logic

Bootimus is a network boot server. Most of it moves bytes between HTTP, TFTP and a database; the parts modelled here
are the ones with logic of their own:

- **Cluster-node enrolment** (`Enrollment`, `EnrollmentColumns`, `EnrollmentHardware`, `EnrollmentServer`,
  `EnrollmentRaces`, `EnrollmentSolo`, `EnrollmentLosses`, `EnrollmentAnnouncements`, `EnrollmentServings`,
  `EnrollmentTraces`): the client row's way from approved to installing to installed, its token and its next-boot
  setting. `Enrollment` says what every storage write and every handler does to the tables and proves what holds
  over all runs; `EnrollmentColumns` follows what an assignment writes into the row, `EnrollmentHardware` the
  hardware check; `EnrollmentServer` is the same code as objects that update their tables in place, each method
  proved equal to its function; `EnrollmentRaces` cuts every handler into its reads, checks and writes, interleaves
  them freely, and proves what survives; `EnrollmentSolo` proves that the cuts of a request add up to its handler.
  What is lost, and exactly when, is in `EnrollmentLosses` (tokens, clusters), `EnrollmentAnnouncements` (webhooks)
  and `EnrollmentServings` (configs, next-boot settings); `EnrollmentTraces` holds runs from the empty tables that
  lose it.
- **Config rendering** (`Templates`, `MergeYaml`, `Talos`, `TalosRoles`, `AutoInstall`): placeholder substitution
  driven by map iteration in any order, the in-place deep merge of nested maps, and the layering of a Talos machine
  configuration.
- **Image groups and the boot menu** (`Groups`, `MenuTree`, `Menu`, `MenuSections`, `MenuDefault`, `MenuLinks`):
  resolving directory paths to groups through a cache while the tree grows, syncing images with files, and the iPXE
  menu as a program of labels and jumps: its sections and items, what it preselects, which labels are missing, what
  can be reached, when building it ends and when it fails.
- **The UDF reader** (`UdfRecords`, `UdfReader`, `UdfMount`, `UdfFile`): byte-level directory records with their
  fixed-width arithmetic (sections 4/14.4 and 4/14.14.1 of ECMA-167), the scan of the volume descriptors, what an
  image must hold, byte for byte, to be mounted, and file contents.
- **Unpacking ISO images** (`Extract`, `ExtractFiles`, `ExtractDirectories`, `ExtractPlaces`, `ExtractLosses`): a
  tree of entries written to a disk of files and folders, with names sanitised and joined to paths, extents put
  together, and everything that does not fit skipped: which files end up whole, and where they end up.
- **Smaller stateful parts** (`BootLog`, `Scheduler`, `ClientImages`, `Percent`).

Tables are maps or sequences, one row updated at a time, and each module keeps only the columns its code reads. Time
is a parameter. Cron entries are a map with fresh ids; webhooks and token writes are an appended event log. Case
folding, YAML parsing, the validity of a cron expression and the library's name decoders are parameters, so the
results hold for all of them. A run-time panic is an explicit outcome (`None` or `Stopped`). `dafny verify
dfyconfig.toml` checks everything.

Properties that turned out false of the code are stated as an exact condition, with a concrete failing input:

- Substitution does not depend on iteration order exactly when no value can help to form another placeholder
  (`Templates.OrderNeverMattersIff`). An empty install disk or client name can (`Talos.NoDiskMakesOrderMatter`,
  `AutoInstall.NamelessMakesOrderMatter`).
- With reads and writes interleaved, a node has a token exactly while its installation is open unless a config
  request marks a node that lost its token since it was read (`EnrollmentLosses.PairingLastsIff`,
  `EnrollmentTraces.StaleMarkLosesPairing`). Each installation is announced once as long as every marking write
  finds the state its request read (`EnrollmentAnnouncements.FreshMarksAnnounceOnce`), a mark that finds the node
  marked announces it again (`SecondMarkAnnouncesAgain`, `EnrollmentTraces.TwoFetchesAnnounceTwice`), and
  `EnrollmentAnnouncements.OnceEachIff` says exactly when. Every cluster a row names exists unless a write names one
  that is gone or removes one that is named (`EnrollmentLosses.NamesLastIff`,
  `EnrollmentTraces.AssignOutlivesCluster`). A config is served on the token last stored unless the row would no
  longer pass the token check (`EnrollmentServings.AnswersLastIff`, `EnrollmentTraces.ConfigOutlivesToken`). A
  next-boot setting is used once as long as each menu that uses it finds it still there
  (`EnrollmentServings.FreshMenusUseOnce`, `SettingsLastIff`, `EnrollmentTraces.TwoMenusPreselectTwice`).
- A directory path that starts with `/` makes the group cache wrong, and no other path does
  (`Groups.CacheIsExactIff`, `Groups.LeadingSlashPoisonsCache`).
- A menu script can name groups that are disabled or gone, and building it fails when a visible group's parent row
  is gone (`MenuLinks.DanglingIff`, `MenuLinks.DisabledGroupDangles`; `MenuLinks.PanicsIff`,
  `MenuLinks.OrphanStopsTheMenu`).
- The search for images below a group ends for every list of images exactly when no cycle of enabled groups lies
  below it (`MenuTree.SearchEndsIff`); on a cycle whose groups hold images it ends at once, on an empty one never
  (`MenuTree.SelfParentNeverEnds`). The update of a group does not prevent cycles.
- A UDF directory record needs 70 bytes to the end of the buffer, whatever its own length, and its name must end by
  byte 255 (`UdfRecords.ReadDirIff`, `UdfRecords.FullSectorStops`); a file is read right only if its extents lie end
  to end (`UdfFile.FirstExtentIff`, `UdfFile.GapIsMisread`).
- An image whose path contains `%` is not found under the URL the menu gives it (`Percent.TwiceUnescapedIff`,
  `Percent.EscapeInNameIsLost`).
- A tree is unpacked with nothing skipped and every file whole exactly when no file goes at or above a folder's
  path, the disk leaves room, each file finds a folder to hold it, files under one path have one content, and the
  last run of extents written to each path is all of its file (`ExtractFiles.CompleteIff`). Extents of one file that
  are not next to each other overwrite each other (`ExtractLosses.SeparatedExtentsAreLost`), a folder whose name is
  sanitised to `.` overwrites files of the folder it lies in (`DotFolderOverwrites`), and a file blocks a folder
  whose name is sanitised to the same (`FileBlocksFolder`).
- A tree stays at or below every destination exactly when no name of it, as sanitised, steps out of it
  (`ExtractPlaces.ContainedIff`); one sanitised to `..` does (`ExtractLosses.DotDotFolderEscapes`).
- A boot request shares its log key with one of another machine or directory exactly when the key can be cut at
  another `|` into a machine and a directory (`BootLog.KeysCollideIff`, `BootLog.BarHidesABoot`).

## Model

| member | source | states |
|---|---|---|
| Enrollment.RowsAlwaysOk | internal/storage/clusters.go:68-149 | in every run of atomic handlers over clients added without enrolment fields: a node has a token exactly while it is approved or installing, then with a deadline and a cluster, and every cluster named exists and comes with a valid role |
| Enrollment.AddingKeepsRowsIff | internal/admin/handlers.go:416-440 | adding a client through the API keeps that invariant exactly when the request body opens no installation and names no missing cluster or unknown role |
| Enrollment.LastWriteIsLatest | internal/storage/clusters.go:92-149 | the latest write to a node's token field is the one after which the log has no other |
| Enrollment.ConfigsAlwaysBacked | internal/server/kubernetes.go:70-149 | in every run, a config served for a node at a time presented the token of the latest write to that node's token field, an assignment or reinstall whose expiry is not before that time, with no completion, unassignment or deletion since |
| Enrollment.FetchKeepsLog | internal/kubernetes/token.go:31-48 | a request that passes the token check is served only on the token and the expiry that the latest write stored, whatever the other checks do |
| Enrollment.StepKeepsLog | internal/admin/clusters.go:419-554 | one handler of any kind, administrator action or device request, keeps every stored token accounted for in the log and every served config backed |
| Enrollment.AnnouncedOnce | internal/server/kubernetes.go:131-143 | in every run, between two token stores an installation is announced as started at most once and as completed at most once, never completed first, and each next-boot setting preselects an image in at most one menu |
| Enrollment.DevicesOnlyAdvance | internal/server/server.go:1813-1835 | without administrator actions a node's state only goes from approved to installing to installed, and its cluster never changes |
| Enrollment.NextBootLastsUntilMenu | internal/server/server.go:1837-1850 | over every run of handlers, however many install scripts it serves, a next-boot setting stays until a menu is served to its node, and then it is gone |
| EnrollmentHardware.UUIDAcceptsIff | internal/kubernetes/token.go:50-58 | whatever spaces are around them, a recorded identifier accepts the presented one exactly when it is empty, or they have equal length and every two characters fold to the same |
| EnrollmentHardware.ServedMachinesMatch | internal/server/kubernetes.go:92-97 | in every run, a config request that is answered presented the identifier last recorded for its node, if one was: the same character for character but for case and the spaces around |
| EnrollmentHardware.RecordedIs | internal/storage/sqlite.go:159-186 | in every run, the identifier that is compared is that of the node's latest inventory report |
| EnrollmentHardware.TokenPassesIff | internal/kubernetes/token.go:31-48 | a token passes exactly for a node that is approved or installing and holds it, up to its deadline; another state is not approved whatever is presented, and only the right token is told to have expired |
| EnrollmentColumns.AssignFills | internal/admin/clusters.go:419-487 | an assignment fills the node's row column by column (role, disk, patch, token, a deadline 24 hours ahead) and leaves name, next boot and every other row |
| EnrollmentColumns.ReinstallRefills | internal/admin/clusters.go:489-534 | a reinstall gives the same cluster, role, disk and patch a new token and deadline |
| EnrollmentColumns.DetachingEmpties | internal/storage/clusters.go:68-149 | unassigning a node or deleting its cluster empties the enrolment columns, and deleting a cluster touches no node of another |
| EnrollmentColumns.StateFills | internal/storage/clusters.go:114-129 | a state write leaves all columns but the state, and for installed, rejected and unmanaged nodes token and deadline |
| EnrollmentColumns.AssignmentLasts | internal/storage/clusters.go:92-103 | over every run, a node keeps the cluster, role, disk and patch of its latest assignment until it is taken out of that cluster |
| EnrollmentServer.Server.AssignNodeToCluster | internal/storage/clusters.go:92-112 | the row update in place: the whole new state, each column of the row, and whether a row was found |
| EnrollmentServer.Server.SetClientEnrollmentState | internal/storage/clusters.go:114-129 | the state update in place, with the token cleared for the final states |
| EnrollmentServer.Server.ResetClientEnrollment | internal/storage/clusters.go:131-149 | the reset in place |
| EnrollmentServer.Server.DeleteClusterRow | internal/storage/clusters.go:68-82 | the loop that detaches the nodes, then the removal, as one new state |
| EnrollmentServer.Server.HandleMachineConfig | internal/server/kubernetes.go:70-149 | the handler check by check and write by write gives the specified state, and answers with a config exactly when the token is live and the right one, the recorded hardware id agrees, cluster and node image are there and the provider renders |
| EnrollmentServer.Server.ProvisionInstallScriptFor | internal/server/kubernetes.go:31-68 | an install script is given exactly when cluster, node image, provider and token allow it |
| EnrollmentServer.Server.HandleIPXEMenu | internal/server/server.go:1802-1866 | the enrolment and next-boot steps in order give the specified state, the script is answered exactly when one was logged, and the menu preselects the image of the node's setting if it is enabled, and none otherwise |
| EnrollmentServer.Server.AssignNode | internal/admin/clusters.go:419-487 | the assignment with its checks: done exactly for an address, a known role and an existing cluster, and then each column of the row is the request's, the old row's or a new client's; anything else changes nothing |
| EnrollmentServer.Server.ReinstallNode | internal/admin/clusters.go:489-534 | a new token and deadline for the same cluster, role, disk and patch, exactly for a node that has a cluster |
| EnrollmentServer.Server.UnassignNode | internal/admin/clusters.go:536-544 | the reset through the handler |
| EnrollmentServer.Server.MarkNodeInstalled | internal/admin/clusters.go:546-554 | completion by hand, with the token cleared |
| EnrollmentServer.Server.DeleteCluster | internal/admin/clusters.go:151-166 | the deletion with its check |
| EnrollmentRaces.EveryInterleavingIsSafe | internal/server/kubernetes.go:70-149 | over every interleaving of every set of requests, a token implies approved or installing with a cluster and a deadline, and each served config was backed when its row was read |
| EnrollmentSolo.UndisturbedIsAtomic | internal/server/kubernetes.go:70-149 | a request that no other comes between leaves, read by read and write by write, exactly what its handler leaves when taken as one |
| EnrollmentLosses.PairingLastsIff | internal/server/kubernetes.go:131-137 | over every interleaving, a node has a token exactly while it is approved or installing, from start to end, exactly when no config request marks a node that lost its token since it was read, and no client is added as open |
| EnrollmentLosses.NamesLastIff | internal/admin/clusters.go:419-534 | over every interleaving, every cluster a row names exists, from start to end, exactly when no assignment or reinstall writes a cluster that is gone, none is removed while a row names it, and no client is added with a missing one |
| EnrollmentAnnouncements.FreshMarksAnnounceOnce | internal/server/kubernetes.go:131-143 | over every interleaving in which each write that announces still finds the state its request read, an installation is announced as started and completed at most once per token store, the start first, and the rows' states agree with what was announced |
| EnrollmentAnnouncements.SecondMarkAnnouncesAgain | internal/server/kubernetes.go:131-143 | where states and announcements agree, a config request that read the node as approved and finds it installing announces the start again |
| EnrollmentAnnouncements.OnceEachIff | internal/server/server.go:1824-1834 | over every interleaving, announcements stay at most once per token store, the start first, from start to end, exactly when no marking write repeats one |
| EnrollmentServings.AnswersLastIff | internal/server/kubernetes.go:83-149 | over every interleaving, each config is served on the token last stored for its node, from start to end, exactly when none is answered to a node whose row would no longer pass the token check |
| EnrollmentServings.FreshMenusUseOnce | internal/server/server.go:1837-1850 | over every interleaving in which each menu that preselects an image finds its node's setting still there, no next-boot setting is used twice |
| EnrollmentServings.SettingsLastIff | internal/server/server.go:1837-1850 | over every interleaving, each setting preselects an image in at most one menu, from start to end, exactly when no menu does so for a node that got such a menu since its latest setting |
| EnrollmentTraces.StaleMarkLosesPairing | internal/server/kubernetes.go:70-149 | from empty tables, request by request: a config request passes all its checks, the node is marked installed by hand, and the mark leaves it installing without a token |
| EnrollmentTraces.TwoFetchesAnnounceTwice | internal/server/kubernetes.go:70-149 | from empty tables: two config requests pass all their checks before either marks the node, and the start is announced twice |
| EnrollmentTraces.AssignOutlivesCluster | internal/admin/clusters.go:419-487 | from empty tables: a cluster is deleted between the check and the write of an assignment, which stores a token for it |
| EnrollmentTraces.ConfigOutlivesToken | internal/server/kubernetes.go:131-149 | from empty tables: a node is taken out of its cluster between the mark and the answer of a config request, which serves the config all the same |
| EnrollmentTraces.TwoMenusPreselectTwice | internal/server/server.go:1837-1850 | from empty tables: two boot requests read one next-boot setting, and both menus preselect its image |
| Templates.Substitute | internal/kubernetes/kubernetes.go:104-109 | the map loop replaces the keys one after another in some order of all of them |
| Templates.AnyOrderIsSimultaneous | internal/kubernetes/kubernetes.go:104-109 | when no value can take part in forming another key, every order gives one simultaneous left-to-right substitution |
| Templates.OrderNeverMattersIff | internal/kubernetes/kubernetes.go:104-109 | the result is the same for every order and every template exactly under that condition, and then it is the simultaneous substitution |
| Templates.FormingBreaksOrder | internal/kubernetes/kubernetes.go:104-109 | for a value that can form another key: a template and two orders with different results |
| Templates.PlainValuesFormNothing | internal/kubernetes/kubernetes.go:94-102 | values without braces that hold a character outside `A-Z _` meet the condition |
| Templates.KeyAlone | internal/kubernetes/kubernetes.go:104-109 | under that condition a placeholder that is all of a template gives its value, in every order |
| AutoInstall.NamelessMakesOrderMatter | internal/server/server.go:2055-2074 | for a machine without a client name some script has two results |
| AutoInstall.PlainValuesHaveOneResult | internal/server/server.go:2063-2074 | with plain values every script has the one simultaneous result, whatever the order |
| AutoInstall.PlaceholdersGive | internal/server/server.go:2063-2074 | each placeholder, as a script of its own, gives its value in every order |
| AutoInstall.ValuesAre | internal/server/server.go:2063-2071 | the values are the machine's address, name and IP address, the server's address and the image's names |
| MergeYaml.MergeYAML | internal/kubernetes/kubernetes.go:111-125 | the in-place merge of map objects, with nested maps updated where they are, spells out the functional deep merge for any key order, a nil destination included |
| MergeYaml.MergeTwice | internal/kubernetes/kubernetes.go:111-125 | merging the same document a second time changes nothing |
| MergeYaml.MergeAssociativeIff | internal/kubernetes/kubernetes.go:111-125 | folding three layers from the left or from the right agrees exactly when no path is a map in the outer two, not a map in the middle one, and not covered by the last |
| MergeYaml.CoveredMeansReplaced | internal/kubernetes/kubernetes.go:111-125 | a layer replaces everything below it exactly when it covers it |
| MergeYaml.MergeAt | internal/kubernetes/kubernetes.go:111-125 | what a merged document holds at a path: decided by the upper layer if it speaks about the path, else left alone |
| MergeYaml.YamlMap.MergeUnder | internal/kubernetes/kubernetes.go:117-121 | the recursive step updates the nested map object in place and touches no other |
| Talos.ApplyPatch | internal/kubernetes/kubernetes.go:127-136 | a blank or null patch changes nothing, a bad one is an error, any other is merged in place |
| Talos.Render | internal/kubernetes/talos/talos.go:120-167 | what is served is the specified document, or error, for some substituted base and patch, each in some iteration order of the variables |
| Talos.ComputedValuesStand | internal/kubernetes/talos/talos.go:143-155 | hostname, and a configured install disk, are the patch's if it covers the path, else the computed ones, whatever was uploaded |
| Talos.UploadSurvives | internal/kubernetes/talos/talos.go:135-155 | what the upload holds on a path that neither overlay nor patch speaks about reaches the node unchanged |
| Talos.NoDiskMakesOrderMatter | internal/kubernetes/kubernetes.go:87-102 | a node with no install disk, own or default, makes rendering depend on iteration order |
| TalosRoles.RoleDecides | internal/kubernetes/talos/talos.go:120-140 | a control-plane node is rendered from the cluster's control-plane configuration, a worker from its worker configuration, no other role from anything; a node gets no config exactly when that of its role is blank |
| TalosRoles.OtherRoleIgnored | internal/kubernetes/talos/talos.go:120-130 | what is configured for the other role does not show in a node's document |
| TalosRoles.PatchDecides | internal/kubernetes/kubernetes.go:127-136 | a blank or null patch leaves the document, a bad one is an error, any other is merged over it |
| TalosRoles.UploadDecides | internal/kubernetes/talos/talos.go:138-144 | an upload that does not parse is an error, and a null one counts as an empty document |
| TalosRoles.SplitIs | internal/kubernetes/talos/talos.go:135-136 | an upload is cut at its first separator between documents, or not at all |
| TalosRoles.HostnameIs | internal/kubernetes/kubernetes.go:76-85 | a node goes by its name, and without one by `node-` and the last six characters of its address without colons |
| TalosRoles.DiskIs | internal/kubernetes/kubernetes.go:87-92 | where the patch is silent, the rendered disk is the node's own, else the cluster's default, else what was uploaded |
| TalosRoles.NodePlaceholdersGive | internal/kubernetes/kubernetes.go:94-102 | the placeholders of address, hostname and disk, as templates of their own, render to the node's |
| TalosRoles.SitePlaceholdersGive | internal/kubernetes/kubernetes.go:94-102 | those of the server and the cluster render to theirs |
| Groups.ImageStore.ResolveGroupPath | internal/storage/sqlite.go:632-681 | the loop over the segments with the shared cache gives the specified table, cache and id |
| Groups.ImageStore.SyncImages | internal/storage/sqlite.go:585-630 | the loop over the files gives the specified groups and images |
| Groups.ImageStore.PlaceImage | internal/storage/sqlite.go:598-626 | the row of one file: created enabled and public, or its size and group brought up to date and nothing else |
| Groups.CacheIsExactIff | internal/storage/sqlite.go:632-681 | for every tree and every right cache, resolving agrees with the cacheless walk and keeps the cache right, exactly when the path does not start with `/` |
| Groups.LeadingSlashPoisonsCache | internal/storage/sqlite.go:632-681 | resolving `/a` on an empty tree caches `a` as a root group that does not exist |
| Groups.LoopIsWalk | internal/storage/postgres.go:330-379 | the cached loop from any point of a path is the walk of the tree, and what it caches is true |
| Groups.LookupIsAncestry | internal/storage/sqlite.go:652-661 | a path leads to a group exactly when the names from the group up to its root spell the path backwards |
| Groups.WalkCreatesOnlyMissing | internal/storage/sqlite.go:661-672 | exactly the segments past the longest known prefix are created, in one chain below it, and no row changes |
| Groups.LoopKeepsSound | internal/storage/sqlite.go:632-681 | for any path and any cache of handed-out ids, parents keep lower ids than children and no two groups share name and parent |
| Groups.SyncKeepsForest | internal/storage/sqlite.go:585-630 | a sync of any files grows such a forest into such a forest and removes no group |
| Groups.SyncSettles | internal/storage/postgres.go:283-328 | after a sync each filename has the last size and last group given to it; no image is removed, renamed, disabled or hidden |
| Groups.SyncTwiceIsOnce | internal/storage/sqlite.go:585-630 | a second sync of the same files changes nothing, for all files and all starting tables |
| Groups.GroupsAreDirectories | internal/storage/sqlite.go:588-596 | with relative directories each file is given the group the finished tree has for its directory |
| Groups.SplitOfJoin | internal/storage/sqlite.go:637-646 | a path built from segments without slashes splits back into them |
| MenuTree.GroupHasImages | internal/server/menu.go:540-550 | from every group where it ends at all, cycles or not, the recursive search finds an enabled image exactly when a path of enabled groups leads down to one |
| MenuTree.SearchIsRight | internal/server/menu.go:540-550 | whenever the search ends on any groups, cyclic or not, its answer is right |
| MenuTree.SearchEndsIff | internal/server/menu.go:540-550 | from a group it ends for every list of images exactly when no cycle of enabled groups lies below |
| MenuTree.SelfParentNeverEnds | internal/server/menu.go:540-550 | from an enabled group that is its own parent and holds no image it does not end |
| MenuTree.SoundHasNoCycle | internal/storage/sqlite.go:661-672 | groups grown by syncing have no cycle, in whatever order they are listed |
| MenuTree.GetChildGroups | internal/server/menu.go:517-525 | exactly the enabled groups with that parent |
| MenuTree.GetImages | internal/server/menu.go:552-563 | the filter loop, then the order by lower-case name |
| MenuTree.SortingOrders | internal/server/menu.go:527-538 | the listed images are in order of their names |
| MenuTree.SortingKeepsAll | internal/server/menu.go:527-538 | ordering keeps every image, as often as it was there |
| Menu.BuildMainMenu | internal/server/menu.go:165-224 | the main menu's lines, from the visible root groups and the ungrouped images, whenever the searches below the root groups end |
| Menu.BuildGroupMenu | internal/server/menu.go:226-285 | one group's lines, with its visible children, its images and the way back, whenever the searches below its children end |
| Menu.BuildGroupMenus | internal/server/menu.go:226-285 | the menus of all visible groups, or the nil dereference of a missing parent, whenever the searches it makes end |
| Menu.BuildImageBootSections | internal/server/menu.go:287-336 | a section for each enabled image, with its failure jump and its way back |
| Menu.BuildFooter | internal/server/menu.go:447-505 | the tools menu, the tool sections and the fixed endings |
| Menu.Build | internal/server/menu.go:90-104 | the whole script, starting with the next-boot jump or the main menu, whenever the searches it makes end |
| Menu.SyncedSearchesEnd | internal/storage/sqlite.go:661-672 | for groups grown by syncing, in whatever order they are listed, they all end |
| MenuLinks.DanglingIff | internal/server/menu.go:90-104 | a label is used but missing exactly when it is `start` behind a next-boot jump, or a group that is not present and enabled while a visible subgroup or an enabled image names it |
| MenuLinks.DisabledGroupDangles | internal/server/menu.go:287-336 | a disabled group with an enabled image: its label is used and missing |
| MenuLinks.PanicsIff | internal/server/menu.go:268-272 | building fails exactly when some visible group's parent row is gone |
| MenuLinks.OrphanStopsTheMenu | internal/server/menu.go:268-272 | a visible group whose parent row is gone: the building fails |
| MenuLinks.DefaultIsItemIff | internal/server/menu.go:128-148 | the default of the main menu is one of its items exactly when the next-boot id is 0 |
| MenuDefault.InstalledPreset | internal/server/menu.go:132-134 | without a next boot, the menu of an installed node presets the local disk and nothing else, whatever the groups, the images and the theme |
| MenuDefault.ThemePreset | internal/server/menu.go:135-140 | otherwise it presets what the theme names, if that is the local disk, the shell or a reboot |
| MenuDefault.GroupPreset | internal/server/menu.go:141-143 | otherwise the first visible root group in the order of the table |
| MenuDefault.ImagePreset | internal/server/menu.go:144-146 | otherwise an ungrouped image that no other precedes by name |
| MenuDefault.LocalPreset | internal/server/menu.go:147-147 | and otherwise the local disk |
| MenuDefault.NextBootPreset | internal/server/menu.go:128-131 | a next boot that is not enabled is the preset itself; behind one that is, nothing is preset |
| MenuDefault.PresetsLoop | internal/server/menu.go:205-220 | the line with the preset goes back to the main menu when nothing is chosen |
| MenuDefault.BeforeIff | internal/server/menu.go:527-538 | names are ordered by their first different character, a name before its continuations |
| MenuSections.SectionsAre | internal/server/menu.go:90-104 | the sections of a script in order: main menu unless jumped over, visible groups, enabled images, tools menu, tools, fixed endings |
| MenuSections.MainChoices | internal/server/menu.go:165-224 | the items of the main menu in order: tools, visible root groups, ungrouped images by name, the fixed three |
| MenuSections.GroupChoices | internal/server/menu.go:226-285 | the items of a group's menu in order: visible children, its images by name, the way up, the fixed three |
| MenuSections.ToolChoices | internal/server/menu.go:447-470 | the tools menu offers each tool in order, and the way back |
| MenuSections.ShownInOrder | internal/server/menu.go:517-525 | groups are listed in the order of the table |
| MenuLinks.ReachableIff | internal/server/menu.go:165-285 | an enabled image can be reached from the main menu by items and jumps exactly when it is ungrouped or its groups are present and enabled up to a root |
| UdfRecords.SliceInOrderIff | internal/udf/descriptor.go:244-245 | the 16-bit start and 8-bit end of the name are in order exactly when the name ends by byte 255 |
| UdfRecords.NewFidReads | internal/udf/descriptor.go:235-247 | an encoded record followed by anything reads back, or stops the program, exactly by those two conditions |
| UdfRecords.SeenIsTrue | internal/udf/descriptor.go:244-245 | for at most 65497 bytes of implementation use the name read is the name written |
| UdfRecords.ParseRecords | internal/udf/udf.go:142-155 | the record loop, with its 32-bit comparison, gives the specified list or stops |
| UdfRecords.ReadDirIff | internal/udf/udf.go:118-156 | reading back any list of encoded records below the 2^30 extent limit gives all named ones in order when each can be read, and stops the program otherwise |
| UdfRecords.ReadDirUndoesEncoding | internal/udf/udf.go:142-155 | and what is read is what was written, for implementation use below the 16-bit wrap |
| UdfRecords.ListedIff | internal/udf/udf.go:142-152 | a record is listed exactly when its identifier starts with compression id 8 or 16 and decodes to a name, and then under that name |
| UdfRecords.ShortLastRecordStops | internal/udf/descriptor.go:243-243 | a directory that fills its sectors and ends in a record under 70 bytes cannot be read |
| UdfRecords.FullSectorStops | internal/udf/descriptor.go:243-243 | thirty-two records of 64 bytes fill a sector, and the program stops at the last |
| UdfReader.NewFileEntry | internal/udf/descriptor.go:274-307 | the loop over the allocation descriptors gives the specified entry or stops |
| UdfReader.EntryInIff | internal/udf/descriptor.go:294-304 | a file entry can be read exactly when attributes and descriptors end inside the sector, and then every descriptor is the one at its offset |
| UdfReader.ScanFindsLast | internal/udf/udf.go:73-92 | the scan keeps the last partition and the last logical volume descriptor before the first terminator, and fails exactly when an unreadable sector comes first |
| UdfReader.ScanForgets | internal/udf/udf.go:73-92 | descriptors kept from an earlier attempt show only where the scan finds none |
| UdfReader.Reader.ScanVolume | internal/udf/udf.go:73-92 | the sector loop, which ends because the image does |
| UdfReader.Reader.Init | internal/udf/udf.go:58-116 | succeeds exactly when the image mounts, also after failed attempts, and once done changes nothing |
| UdfReader.Reader.ReadDir | internal/udf/udf.go:118-156 | the entries of a directory or of the root, with each failure |
| UdfMount.MountReads | internal/udf/udf.go:58-116 | an image with its anchor (location at byte 20 of sector 256), its partition and logical volume descriptors (bytes 188 and 252), its file set (byte 404) and its root entry in place is mounted with just that start and root, whatever else it holds |
| UdfMount.MountedStands | internal/udf/udf.go:58-116 | and an image that is mounted holds all of them, read from those bytes |
| UdfMount.RootListing | internal/udf/udf.go:118-156 | the root's listing of such an image is the named records written at its first extent, in order, or the program stops at one that cannot be read |
| UdfMount.EntryReads | internal/udf/descriptor.go:274-307 | a file entry written with its type at byte 27, its length at 56, and its descriptors behind the attributes is read as that |
| UdfFile.File.Entry | internal/udf/file.go:48-58 | with or without its cache the entry is the one on the image; an unreadable sector gives an empty entry that is not kept |
| UdfFile.File.Contents | internal/udf/file.go:60-70 | a section of the image from the first descriptor on, as long as the recorded length |
| UdfFile.FirstExtentIff | internal/udf/file.go:60-70 | that is the concatenation of the extents, on every image that holds them, exactly when the non-empty ones lie end to end and the lengths add up to the recorded length |
| UdfFile.GapIsMisread | internal/udf/file.go:60-70 | a file of one full sector and a byte two sectors on is read with the byte right after the first sector |
| UdfFile.NoExtentsIsMisread | internal/udf/file.go:60-70 | a file without descriptors but with a length is read from the start of the image |
| UdfFile.File.IsDir | internal/udf/file.go:29-31 | directories are entries of type 4, and asking about an unreadable sector stops the program |
| UdfFile.PositionsAreRunIff | internal/udf/descriptor.go:299-304 | the byte positions of a file are one run exactly when its extents are contiguous |
| BootLog.BootLog.RecordBootIfNew | internal/server/server.go:1660-1685 | a request is recorded exactly when it counts and its key was not recorded in the last 30 s, and then the map holds it and, past 1024 keys, nothing over ten minutes old |
| BootLog.BootLog.Purge | internal/server/server.go:1677-1683 | the deleting loop, in any order, removes exactly the keys over ten minutes old |
| BootLog.PurgingChangesNothing | internal/server/server.go:1660-1685 | over every run in time order each request is recorded exactly when no recorded one with its key came less than 30 s before, however often the map was purged |
| BootLog.KeysCollideIff | internal/server/server.go:1660-1670 | a request shares its key with one of another machine or directory exactly when the key can be cut at another bar into a machine that is named and a directory without slashes |
| BootLog.BarlessKeysAreUnique | internal/server/server.go:1669-1670 | a machine and a directory without bars share their key with no other request |
| BootLog.BarHidesABoot | internal/server/server.go:1669-1676 | two machines, the address of one holding a bar: the boot of the second is taken for a repetition |
| Scheduler.Scheduler.Reload | internal/scheduler/scheduler.go:48-93 | afterwards each id runs the current copy of its enabled task with a valid expression, or nothing, whatever ran before; ids and live cron entries are paired one to one |
| Scheduler.Scheduler.DropGone | internal/scheduler/scheduler.go:60-71 | the first loop removes exactly the entries of ids that are gone or disabled |
| Scheduler.Scheduler.Replace | internal/scheduler/scheduler.go:73-90 | one pass of the second loop: the old entry goes even if the new expression is not valid |
| Scheduler.WantedIff | internal/scheduler/scheduler.go:60-90 | with unique ids the wanted tasks are exactly the enabled ones with a valid expression |
| Scheduler.NoneLeaks | internal/scheduler/scheduler.go:60-90 | paired maps have equally many entries, so no cron entry is left over |
| ClientImages.GetImagesForClient | internal/storage/sqlite.go:478-543 | without duplicates exactly the enabled images on the client's list or its enabled group's list, plus public ones if it shows them; for an unknown or disabled client the enabled public ones; the fall-through agrees |
| ClientImages.Union | internal/storage/postgres.go:424-433 | the own list comes first, and then each further entry of the group's list once, in its order, and nothing twice that was not |
| ClientImages.AddPublic | internal/storage/postgres.go:443-454 | the picked images come first, then the public ones that are not among them |
| Percent.EncodePathSegments | internal/server/menu.go:157-163 | the loop that escapes each segment in place |
| Percent.EncodeRoundTrip | internal/server/menu.go:157-163 | unescaping the encoded path gives the path |
| Percent.EncodeKeepsSegments | internal/server/menu.go:157-163 | the segments of the encoded path are those of the path, escaped one by one |
| Percent.CharactersAre | internal/server/menu.go:157-163 | letters, digits and ten signs are kept, any other byte becomes a percent sign and its two upper-case digits |
| Percent.HexDigitsAre | internal/server/server.go:1022-1029 | both cases of the hexadecimal digits are read, with their values |
| Percent.TwiceUnescapedIff | internal/server/server.go:1022-1029 | after the server's unescaping the handler's second one is the identity exactly when the path contains no `%` |
| Percent.EscapeInNameIsLost | internal/server/server.go:1022-1029 | an image named `%25` is looked up as `%` |
| Percent.JoinOfSplit | internal/server/menu.go:158-162 | a path cut at its slashes goes back together |
| Extract.Disk.ExtractDirectory | internal/extractor/extractor.go:878-927 | the recursive loop over the entries leaves exactly the specified disk and log: what was made and written, and what was skipped |
| Extract.Disk.CollectExtents | internal/extractor/extractor.go:911-915 | the inner loop collects the run of equally named files from here |
| Extract.Disk.ExtractFile | internal/extractor/extractor.go:929-946 | the file is emptied and then holds its extents one after another, unless its path is a folder or has no folder to hold it |
| Extract.BytesConserved | internal/extractor/extractor.go:878-946 | through the whole tree the bytes written or reported as skipped, item after item, are those of the kept files, entry after entry |
| Extract.EachRunIsOneFile | internal/extractor/extractor.go:911-915 | the run around any kept file, as far as it goes both ways, is one file to write |
| ExtractFiles.FilesSurviveIff | internal/extractor/extractor.go:878-946 | whatever was skipped, every kept file is on disk with all its extents exactly when the last file written under its path, or else what was there before, is all of it |
| ExtractFiles.NothingSkippedIff | internal/extractor/extractor.go:901-924 | nothing is skipped exactly when no file of the tree goes at or above the path of one of its folders, the disk leaves room, and each file finds a folder to hold it |
| ExtractFiles.CompleteIff | internal/extractor/extractor.go:878-946 | nothing is skipped and every kept file is whole exactly when that holds, files under one path have one content, and the last run written to each path is all of its file |
| ExtractFiles.SingleRunsCompleteIff | internal/extractor/extractor.go:911-915 | when each file's extents are next to each other, the last condition can be left away |
| ExtractDirectories.AgreeIffCompatible | internal/extractor/extractor.go:892-899 | for trees of plain names, the files of one agree with files and folders of the other exactly when entries of one sanitised name do, and so on down their subdirectories |
| ExtractDirectories.PlainCompleteIff | internal/extractor/extractor.go:878-946 | a tree of plain names is unpacked into an empty folder with nothing skipped and every file whole exactly when entries of one sanitised name agree with each other and the last run under each path is all of its file |
| ExtractPlaces.ContainedIff | internal/extractor/extractor.go:892-899 | all files and folders of a tree go to the destination or below, whatever it is, exactly when no name of the tree, as sanitised, steps out |
| ExtractPlaces.OutsideStays | internal/extractor/extractor.go:878-946 | unpacking such a tree changes nothing on any disk outside the destination and the way to it |
| ExtractFiles.LastFileSurvivesIff | internal/extractor/extractor.go:911-946 | a file whose path nothing later in the tree writes is whole on disk exactly when its last run is not skipped and its extents before that run are empty |
| ExtractFiles.RunIsWholeIff | internal/extractor/extractor.go:911-915 | a run is all of its file exactly when the file's extents outside it are empty |
| ExtractLosses.SeparatedExtentsAreLost | internal/extractor/extractor.go:911-915 | two extents of one file with another entry between them leave only the second |
| ExtractLosses.DotFolderOverwrites | internal/extractor/extractor.go:895-899 | the files of a folder whose name is sanitised to `.` replace those of the folder it lies in |
| ExtractLosses.DotDotFolderEscapes | internal/extractor/extractor.go:895-899 | the file of a folder whose name is sanitised to `..` goes next to the destination |
| ExtractLosses.FileBlocksFolder | internal/extractor/extractor.go:901-905 | a folder is skipped with all that is in it when a file took its sanitised name |
| Extract.SanitisedIsClean | internal/extractor/extractor.go:948-963 | a sanitised name holds no invalid or control character, and only a clean name is left as it was |
| Extract.SanitisedCharacter | internal/extractor/extractor.go:948-963 | what sanitising makes of each character: an underscore, itself or nothing |

## Left out

- HTTP, TFTP, SMB, NFS, NBD, proxyDHCP, Wake-on-LAN, Redfish, LDAP and login: I/O or library calls with thin logic.
- GORM, SQL and connection errors: tables are maps or sequences, and a write changes one row or the rows of one cluster.
- YAML and JSON text: documents start as parsed trees, and the parser is a parameter.
- GenerateToken: any non-empty string. Webhook delivery: only the order of its events is kept.
- Menu texts, titles, sizes, timeouts and boot parameters: only labels, items, jumps and the default are kept.
- MenuTree.SortedByName: equal names keep their order; the library's sort may reorder them in lists of more than 12.
- Menu.Build and the methods it calls, down to MenuTree.GroupHasImages: a search that does not end gives no result, so they ask that it ends.
- EnrollmentTraces.AssignOutlivesCluster, Enrollment.AddingKeepsRowsIff, MenuLinks.PanicsIff: a missing cluster or parent row needs a store that accepts the reference, as SQLite does the way it is opened here (internal/storage/sqlite.go:23-33); one that enforces the declared foreign keys, as PostgreSQL would, refuses those writes.
- EnrollmentRaces: an announcement is taken together with the write it announces.
- EnrollmentSolo.UndisturbedIsAtomic: leaves out a boot request of a machine without a row, which reads nothing more and changes no table.
- MenuLinks.ReachableIff: falling from one section into the next without a jump is not followed; only `shell` and tool sections can do so, into sections with no image.
- Groups: errors of the database while a group or an image is created; soft-deleted rows, which these queries never see.
- UDF descriptor checksums, extended file entries, several partitions and the flag bits of an extent length: the reader ignores them too.
- UDF names: the Windows-1252 and UTF-16 decoders are one parameter.
- Extract.Disk.ExtractDirectory: failing reads and writes (a file that cannot be copied in full is removed again), permissions, links, and the limits on names and paths.
- Extract.Join: paths count from the root; a relative destination counts from the working directory in the same way.
- BootLog: what is written after a request is found new (image name, statistics, webhook).
- Scheduler: running a job and recording its result.
- Percent: the backslashes of Windows paths, which the encoder first turns into slashes.
- Admin CSV import, last-admin guard, profile and tool seeding, bootfile precedence, translations: easy to state, so they would add little.
