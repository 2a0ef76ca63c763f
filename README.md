# WPEX Remove Upsells for Elementor, modelled in Dafny

This WordPress add-on removes the upsell menu entries, links and panels that
Elementor shows when Elementor Pro is not installed. The decision logic is in
two callbacks of the class `WPEX_Remove_Upsells_For_Elementor`. This project
models both of them, plus the start-up guard that decides whether any callback
is registered.

- `menu_removal.dfy`, module `MenuRemoval`, models `remove_admin_pages`. It
  scans Elementor's admin-menu registry and keeps the entries that are hooked
  and are either promotional or the `elementor-apps` page. It sorts them into
  two lists: top-level pages, removed by their hook handle, and sub-pages,
  removed by (parent slug, item slug). It then issues the removals in a fixed
  order, ending with three fixed sub-pages; the last of these depends on the
  `page` request parameter.
  The registry is a sequence of (slug, value) pairs. The value is
  `NonObject`, or `MenuItem` carrying tags for the two promotion base classes
  and the optional result of `get_parent_slug`. The registry itself is `None`
  when `get_all` is not callable. `$hooks` is a `map<string, string>`,
  `$_GET['page']` is an `Option<string>`, and each `remove_menu_page` /
  `remove_submenu_page` call is a `Removal` event in the returned sequence.
  The definitions the lemmas are stated in: `Qualifies` is the test of lines
  78-83 (hooked, an object, and promotional or `elementor-apps`); `PhpEmpty`
  is PHP `empty()` on a string, `''` or `'0'` (line 86); `FixedRemovals` are
  the removals of lines 100-104, the last only when `page` is not
  `'elementor-app'`.
  `CollectRemovals` is the `foreach` that builds the two lists.
  `RemoveAdminPages` is the whole routine. It is proved equal to the
  specification `ExpectedRemovals`, and the lemmas state what that
  specification guarantees.
- `admin_bar.dfy`, module `AdminBar`, models `modify_admin_bar`. PHP values
  are a datatype. A PHP array is an ordered sequence of (key, value) pairs, so
  `unset` removes exactly one pair and keeps the others and their order.
  `ChildrenOf` is the guard of lines 125-126: the configuration holds, under
  `elementor_edit_page`, a `children` entry that is set and is an array.
  `IsSiteEditor` is the test of line 129: the child is an array whose `id` is
  the string `elementor_app_site_editor`.
  `Get` is the PHP read `$v[$k]` used by those tests (lines 125-126, 129): it
  yields the value stored under the key, null included, when `$v` is an array
  holding that key; whether the value is set (not null) is decided in
  `ChildrenOf` and `IsSiteEditor`.
  `WithChildren` is the nested in-place write behind the `unset` of line 130:
  the configuration with the children array of `elementor_edit_page` replaced,
  every key keeping its position.
  `SiteEditorCount` counts the children that pass the test of line 129; it is
  the measure in `ModifyAdminBar`'s last postcondition.
  `ModifyAdminBar` has the source's loop with `break`.
- `plugin.dfy`, module `Plugin`, models `register_actions` as a function from
  "is `has_pro` callable" and "what it returns" to the list of hook
  registrations.
- `wrappers.dfy`, module `Wrappers`, holds the `Option` datatype.

A missing `get_parent_slug` does not skip the entry: its parent slug is
`''`, so its hook handle is removed as a top-level page
(wpex-remove-upsells-for-elementor.php:85, 89). Only a missing `get_all`
skips the scan. Besides subclasses of the promotion item base class,
subclasses of the promotion template base class and the `elementor-apps` slug
also qualify (lines 80-82).

## Model

| member | source | states |
|---|---|---|
| `MenuRemoval.CollectRemovals` | wpex-remove-upsells-for-elementor.php:77-92 | the scan loop builds exactly the top-level and sub-page lists of the specification plan, in encounter order |
| `MenuRemoval.RemoveAdminPages` | wpex-remove-upsells-for-elementor.php:73-105 | the removals issued are the planned top-level pages, then the planned sub-pages, then the fixed sub-pages; with no callable `get_all` both lists are empty |
| `MenuRemoval.NonQualifyingEntryIsIgnored` | wpex-remove-upsells-for-elementor.php:78-84 | an entry that is not hooked, not an object, or neither promotional nor `elementor-apps` causes no removal: inserting it anywhere leaves the removals unchanged |
| `MenuRemoval.TopLevelMembership` | wpex-remove-upsells-for-elementor.php:78-90 | a handle is in the top-level list if and only if some qualifying entry with an empty parent slug (by PHP `empty()`, so `''` or `'0'`) is hooked to it |
| `MenuRemoval.SubPageMembership` | wpex-remove-upsells-for-elementor.php:78-90 | a (parent, slug) pair is in the sub-page list if and only if a qualifying entry with that slug has that non-empty parent slug |
| `MenuRemoval.EveryQualifyingEntryInExactlyOneList` | wpex-remove-upsells-for-elementor.php:85-90 | the two lists together are exactly as long as the list of qualifying entries: each qualifying entry lands in one list, and only those do |
| `MenuRemoval.SubPageListedOnce` | wpex-remove-upsells-for-elementor.php:86-87 | with distinct registry slugs (PHP array keys), a sub-page entry's pair occurs exactly once in the sub-page list |
| `MenuRemoval.TopLevelListedOnce` | wpex-remove-upsells-for-elementor.php:88-89 | with distinct handles among the top-level entries, a top-level entry's handle occurs exactly once in the top-level list |
| `MenuRemoval.TopLevelKeepsEncounterOrder` | wpex-remove-upsells-for-elementor.php:77-96 | two top-level entries are removed in the order the registry lists them |
| `MenuRemoval.SubPagesKeepEncounterOrder` | wpex-remove-upsells-for-elementor.php:77-99 | two sub-page entries are removed in the order the registry lists them |
| `MenuRemoval.MissingParentAccessorMeansTopLevel` | wpex-remove-upsells-for-elementor.php:85-90 | a qualifying item without a callable `get_parent_slug` has its handle in the top-level list; its slug can appear in the sub-page list only through another entry with the same slug |
| `MenuRemoval.MenuRemovalsAt` | wpex-remove-upsells-for-elementor.php:94-96 | the k-th `remove_menu_page` call is for the k-th collected handle |
| `MenuRemoval.SubmenuRemovalsAt` | wpex-remove-upsells-for-elementor.php:97-99 | the k-th `remove_submenu_page` call from the list is for the k-th collected pair |
| `MenuRemoval.RemovalOrder` | wpex-remove-upsells-for-elementor.php:94-104 | the removals are, in order: all top-level pages, all sub-pages, `('elementor','go_knowledge_base_site')`, `('elementor','go_elementor_pro')`, and the library app sub-page when the request is not for `elementor-app`; nothing else |
| `MenuRemoval.FixedSubPagesAlwaysRemoved` | wpex-remove-upsells-for-elementor.php:100-101 | the knowledge-base and go-pro sub-pages are removed whatever the registry, hooks and request |
| `MenuRemoval.LibraryAppRemovalCondition` | wpex-remove-upsells-for-elementor.php:102-104 | the last removal is `('edit.php?post_type=elementor_library','elementor-app')` if and only if `page` is absent or differs from `'elementor-app'` |
| `MenuRemoval.NoRegistryOnlyFixedRemovals` | wpex-remove-upsells-for-elementor.php:76-104 | when `get_all` is not callable, only the two fixed sub-pages and the conditional one are removed |
| `MenuRemoval.NothingQualifiesOnlyFixedRemovals` | wpex-remove-upsells-for-elementor.php:77-104 | a registry with no qualifying entry yields only the fixed removals |
| `MenuRemoval.WorkedExample` | wpex-remove-upsells-for-elementor.php:73-105 | a hooked promotion item without a parent and an unhooked plain item: the removals are that item's handle followed by the three fixed sub-pages |
| `AdminBar.KeyIndex` | wpex-remove-upsells-for-elementor.php:125-129 | finds the first (and, in a PHP array, only) position of a key, or reports that the key is absent |
| `AdminBar.ModifyAdminBar` | wpex-remove-upsells-for-elementor.php:124-136 | without an array of children under `elementor_edit_page` the configuration is returned unchanged; with no site-editor child it is unchanged; otherwise exactly the first site-editor child is removed from the children list; the result's children hold one site-editor entry fewer when there was one and as many (none) when there was none |
| `AdminBar.WithChildrenChangesOnlyChildren` | wpex-remove-upsells-for-elementor.php:130-135 | the in-place update keeps every top-level key, its position and every other top-level value, keeps every other key of the `elementor_edit_page` node, and the children read back as the new list |
| `AdminBar.RemovingOneChild` | wpex-remove-upsells-for-elementor.php:130-131 | unsetting one site-editor child removes exactly that pair: one element fewer, the same multiset minus that pair, one site-editor child fewer, the rest in order |
| `AdminBar.NoSiteEditorMeansCountZero` | wpex-remove-upsells-for-elementor.php:128-133 | the children have no site-editor entry if and only if their site-editor count is zero |
| `Plugin.RegisterActions` | wpex-remove-upsells-for-elementor.php:58-68 | nothing is registered if and only if `has_pro` is callable and reports Pro; otherwise five registrations with distinct callbacks, the menu action and the admin-bar filter at `PHP_INT_MAX` |
| `Plugin.EveryCallbackRegisteredWithoutPro` | wpex-remove-upsells-for-elementor.php:59-67 | when Pro is not detected, every callback is registered |

## Left out

- The constructor's choice between calling `register_actions` at once (`did_action`) and deferring it to `elementor/loaded` (lines 47-53): WordPress event plumbing; once Elementor has loaded, both paths register the same callbacks.
- `admin_top_bar_css` and `editor_css` (lines 110-119, 141-146): they pass constant CSS strings to `wp_add_inline_style`; there is no logic to model.
- `remove_dashboard_widget` (lines 151-153): a single call to `remove_meta_box`.
- The effect of `remove_menu_page` and `remove_submenu_page` on WordPress' menu tables: the model records the calls, in order, and does not model the tables.
- `(array)` casting of a non-array result of `get_all()`: the registry is taken to be an array, as Elementor returns one.
- `isset($hooks[...])` on a hook whose value is `null`: hook handles are modelled as strings, so every key of `$hooks` is set.
- `get_parent_slug()` returning something other than a string: only strings are modelled, so PHP `empty()` is `''` or `'0'`.
- PHP's conversion of integer-like string keys to integers: keys are kept as given.
- Objects inside the admin-bar configuration are not modelled, and only arrays support lookups: an `ArrayAccess` object would answer the lookups itself, and a plain object indexed at line 125 or 129 makes PHP throw an `Error`.
- `MenuRemoval.TopLevelListedOnce`: assumes the host's `$hooks` gives distinct top-level entries distinct handles (its requires); the code does not check it. Without that requirement two top-level entries with a shared handle put it in the list twice, as the code would.
