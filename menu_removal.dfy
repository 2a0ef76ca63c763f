/**
 * The admin-menu removal planner of the plugin (`remove_admin_pages`).
 *
 * Elementor calls it once its admin menu is registered, passing its menu
 * manager and a map from menu slug to the WordPress hook handle of that page.
 * The routine scans the registry, collects the promotional entries into a
 * list of top-level pages and a list of sub-pages, and then asks WordPress to
 * remove them, followed by three fixed sub-pages (the last one conditionally).
 *
 * The host is abstracted: the registry is a snapshot sequence, PHP type tests
 * are tags on the entries, and each WordPress removal call is an event in the
 * returned sequence.
 */
module MenuRemoval {
  import opened Wrappers

  /** A value found in the menu registry under some slug. */
  datatype RegistryValue =
    | NonObject
      /** An object. `promotionItem` / `promotionTemplate`: it is a strict
          subclass of Elementor's promotion item / promotion template base
          class. `parentSlug`: what `get_parent_slug()` returns, or None when
          that method is not callable on the object. */
    | MenuItem(promotionItem: bool, promotionTemplate: bool, parentSlug: Option<string>)

  /** One registry entry: (item slug, item). */
  type Entry = (string, RegistryValue)

  /** One call into WordPress' admin-menu API. */
  datatype Removal =
    | RemoveMenuPage(handle: string)
    | RemoveSubmenuPage(parent: string, slug: string)

  /** The two lists the scan builds, in the order entries were met. */
  datatype Plan = Plan(pages: seq<string>, subpages: seq<(string, string)>)

  const AppsSlug := "elementor-apps"
  const KnowledgeBaseRemoval := RemoveSubmenuPage("elementor", "go_knowledge_base_site")
  const GoProRemoval := RemoveSubmenuPage("elementor", "go_elementor_pro")
  const LibraryAppRemoval := RemoveSubmenuPage("edit.php?post_type=elementor_library", "elementor-app")
  /** The value of the `page` request parameter that keeps the library app entry. */
  const AppPage := "elementor-app"

  /** PHP `empty()` on a string: the empty string and "0". */
  predicate PhpEmpty(s: string)
  {
    s == "" || s == "0"
  }

  /** The entry is hooked, is an object, and is promotional or the apps page. */
  predicate Qualifies(e: Entry, hooks: map<string, string>)
  {
    e.0 in hooks && e.1.MenuItem? &&
    (e.1.promotionItem || e.1.promotionTemplate || e.0 == AppsSlug)
  }

  /** The parent slug the routine works with: "" when the accessor is missing. */
  function ParentOf(item: RegistryValue): string
    requires item.MenuItem?
  {
    item.parentSlug.GetOr("")
  }

  /** A qualifying entry that is removed as a sub-page of its parent. */
  predicate IsSubPageEntry(e: Entry, hooks: map<string, string>)
  {
    Qualifies(e, hooks) && !PhpEmpty(ParentOf(e.1))
  }

  /** A qualifying entry that is removed as a top-level page by its handle. */
  predicate IsTopLevelEntry(e: Entry, hooks: map<string, string>)
  {
    Qualifies(e, hooks) && PhpEmpty(ParentOf(e.1))
  }

  /** What one entry adds to the top-level list. */
  function TopLevelOf(e: Entry, hooks: map<string, string>): seq<string>
  {
    if IsTopLevelEntry(e, hooks) then [hooks[e.0]] else []
  }

  /** What one entry adds to the sub-page list. */
  function SubPageOf(e: Entry, hooks: map<string, string>): seq<(string, string)>
  {
    if IsSubPageEntry(e, hooks) then [(ParentOf(e.1), e.0)] else []
  }

  /** The top-level list after scanning `entries`. */
  function TopLevelPlan(entries: seq<Entry>, hooks: map<string, string>): seq<string>
  {
    if entries == [] then []
    else TopLevelPlan(entries[..|entries| - 1], hooks) + TopLevelOf(entries[|entries| - 1], hooks)
  }

  /** The sub-page list after scanning `entries`. */
  function SubPagePlan(entries: seq<Entry>, hooks: map<string, string>): seq<(string, string)>
  {
    if entries == [] then []
    else SubPagePlan(entries[..|entries| - 1], hooks) + SubPageOf(entries[|entries| - 1], hooks)
  }

  /** The qualifying entries of `entries`, in order: the reference the plan is counted against. */
  function QualifyingEntries(entries: seq<Entry>, hooks: map<string, string>): (q: seq<Entry>)
    ensures |q| <= |entries|
    ensures forall k :: 0 <= k < |q| ==> q[k] in entries && Qualifies(q[k], hooks)
  {
    if entries == [] then []
    else
      var e := entries[|entries| - 1];
      QualifyingEntries(entries[..|entries| - 1], hooks) + (if Qualifies(e, hooks) then [e] else [])
  }

  /** Both lists; a registry whose `get_all` is not callable (None) yields two empty lists. */
  function PlanFor(registry: Option<seq<Entry>>, hooks: map<string, string>): Plan
  {
    match registry
    case None => Plan([], [])
    case Some(entries) => Plan(TopLevelPlan(entries, hooks), SubPagePlan(entries, hooks))
  }

  /** One `remove_menu_page` call per handle, in list order. */
  function MenuRemovals(handles: seq<string>): (r: seq<Removal>)
    ensures |r| == |handles|
  {
    if handles == [] then []
    else MenuRemovals(handles[..|handles| - 1]) + [RemoveMenuPage(handles[|handles| - 1])]
  }

  /** One `remove_submenu_page` call per pair, in list order. */
  function SubmenuRemovals(pairs: seq<(string, string)>): (r: seq<Removal>)
    ensures |r| == |pairs|
  {
    if pairs == [] then []
    else
      var last := pairs[|pairs| - 1];
      SubmenuRemovals(pairs[..|pairs| - 1]) + [RemoveSubmenuPage(last.0, last.1)]
  }

  /** The `k`-th menu removal is for the `k`-th handle. */
  lemma {:induction false} MenuRemovalsAt(handles: seq<string>, k: nat)
    requires k < |handles|
    ensures MenuRemovals(handles)[k] == RemoveMenuPage(handles[k])
    decreases |handles|
  {
    var n := |handles| - 1;
    if k < n {
      MenuRemovalsAt(handles[..n], k);
    }
  }

  /** The `k`-th sub-menu removal is for the `k`-th pair. */
  lemma {:induction false} SubmenuRemovalsAt(pairs: seq<(string, string)>, k: nat)
    requires k < |pairs|
    ensures SubmenuRemovals(pairs)[k] == RemoveSubmenuPage(pairs[k].0, pairs[k].1)
    decreases |pairs|
  {
    var n := |pairs| - 1;
    if k < n {
      SubmenuRemovalsAt(pairs[..n], k);
    }
  }

  /** The removals issued after the two planned lists. */
  function FixedRemovals(page: Option<string>): seq<Removal>
  {
    [KnowledgeBaseRemoval, GoProRemoval] + (if page != Some(AppPage) then [LibraryAppRemoval] else [])
  }

  /** Every removal the routine issues, in order. */
  function ExpectedRemovals(registry: Option<seq<Entry>>, hooks: map<string, string>, page: Option<string>): seq<Removal>
  {
    var plan := PlanFor(registry, hooks);
    MenuRemovals(plan.pages) + SubmenuRemovals(plan.subpages) + FixedRemovals(page)
  }

  /**
   * The `foreach` over `get_all()`: collects the handles of the top-level
   * pages and the (parent slug, item slug) pairs of the sub-pages to remove.
   */
  method CollectRemovals(entries: seq<Entry>, hooks: map<string, string>)
    returns (pagesToRemove: seq<string>, subpagesToRemove: seq<(string, string)>)
    ensures Plan(pagesToRemove, subpagesToRemove) == PlanFor(Some(entries), hooks)
  {
    pagesToRemove, subpagesToRemove := [], [];
    var i := 0;
    while i < |entries|
      invariant 0 <= i <= |entries|
      invariant pagesToRemove == TopLevelPlan(entries[..i], hooks)
      invariant subpagesToRemove == SubPagePlan(entries[..i], hooks)
    {
      var (itemSlug, item) := entries[i];
      ScanStep(entries, i, hooks);
      if Qualifies((itemSlug, item), hooks) {
        var parentSlug := ParentOf(item);
        if !PhpEmpty(parentSlug) {
          subpagesToRemove := subpagesToRemove + [(parentSlug, itemSlug)];
        } else {
          pagesToRemove := pagesToRemove + [hooks[itemSlug]];
        }
      }
      i := i + 1;
    }
    assert entries[..i] == entries;
  }

  /**
   * `remove_admin_pages( $menu_manager, $hooks )`: `registry` is the result of
   * `get_all()` (None when it is not callable), `page` is `$_GET['page']`,
   * and `removals` are the WordPress removal calls in the order they are made.
   */
  method RemoveAdminPages(registry: Option<seq<Entry>>, hooks: map<string, string>, page: Option<string>)
    returns (removals: seq<Removal>)
    ensures removals == ExpectedRemovals(registry, hooks, page)
  {
    var pagesToRemove: seq<string> := [];
    var subpagesToRemove: seq<(string, string)> := [];
    if registry.Some? {
      pagesToRemove, subpagesToRemove := CollectRemovals(registry.value, hooks);
    }
    ghost var plan := PlanFor(registry, hooks);
    assert pagesToRemove == plan.pages && subpagesToRemove == plan.subpages;
    removals := [];
    for k := 0 to |pagesToRemove|
      invariant removals == MenuRemovals(pagesToRemove[..k])
    {
      MenuRemovalsStep(pagesToRemove, k);
      removals := removals + [RemoveMenuPage(pagesToRemove[k])];
    }
    assert pagesToRemove[..|pagesToRemove|] == pagesToRemove;
    ghost var afterPages := removals;
    for k := 0 to |subpagesToRemove|
      invariant removals == afterPages + SubmenuRemovals(subpagesToRemove[..k])
    {
      SubmenuRemovalsStep(subpagesToRemove, k);
      removals := removals + [RemoveSubmenuPage(subpagesToRemove[k].0, subpagesToRemove[k].1)];
    }
    assert subpagesToRemove[..|subpagesToRemove|] == subpagesToRemove;
    ghost var planned := removals;
    assert planned == MenuRemovals(plan.pages) + SubmenuRemovals(plan.subpages);
    removals := removals + [KnowledgeBaseRemoval];
    removals := removals + [GoProRemoval];
    if page.None? || page.value != AppPage {
      removals := removals + [LibraryAppRemoval];
    }
    assert removals == planned + FixedRemovals(page);
  }

  /** One more handle issued. */
  lemma MenuRemovalsStep(handles: seq<string>, k: nat)
    requires k < |handles|
    ensures MenuRemovals(handles[..k + 1]) == MenuRemovals(handles[..k]) + [RemoveMenuPage(handles[k])]
  {
    assert handles[..k + 1][..k] == handles[..k];
  }

  /** One more sub-page issued. */
  lemma SubmenuRemovalsStep(pairs: seq<(string, string)>, k: nat)
    requires k < |pairs|
    ensures SubmenuRemovals(pairs[..k + 1]) == SubmenuRemovals(pairs[..k]) + [RemoveSubmenuPage(pairs[k].0, pairs[k].1)]
  {
    assert pairs[..k + 1][..k] == pairs[..k];
  }

  /** One more entry scanned: each list grows by what that entry contributes. */
  lemma ScanStep(entries: seq<Entry>, i: nat, hooks: map<string, string>)
    requires i < |entries|
    ensures TopLevelPlan(entries[..i + 1], hooks) == TopLevelPlan(entries[..i], hooks) + TopLevelOf(entries[i], hooks)
    ensures SubPagePlan(entries[..i + 1], hooks) == SubPagePlan(entries[..i], hooks) + SubPageOf(entries[i], hooks)
  {
    assert entries[..i + 1][..i] == entries[..i];
  }

  // ---------------------------------------------------------------------
  // Properties of the plan
  // ---------------------------------------------------------------------

  /** Scanning is compositional: the top-level list for `a + b` is that for `a` followed by that for `b`. */
  lemma {:induction false} TopLevelConcat(a: seq<Entry>, b: seq<Entry>, hooks: map<string, string>)
    ensures TopLevelPlan(a + b, hooks) == TopLevelPlan(a, hooks) + TopLevelPlan(b, hooks)
    decreases |b|
  {
    if b == [] {
      assert a + b == a;
    } else {
      var b' := b[..|b| - 1];
      assert (a + b)[..|a + b| - 1] == a + b';
      TopLevelConcat(a, b', hooks);
    }
  }

  /** Likewise for the sub-page list. */
  lemma {:induction false} SubPageConcat(a: seq<Entry>, b: seq<Entry>, hooks: map<string, string>)
    ensures SubPagePlan(a + b, hooks) == SubPagePlan(a, hooks) + SubPagePlan(b, hooks)
    decreases |b|
  {
    if b == [] {
      assert a + b == a;
    } else {
      var b' := b[..|b| - 1];
      assert (a + b)[..|a + b| - 1] == a + b';
      SubPageConcat(a, b', hooks);
    }
  }

  /** Both lists of `a + b`. */
  lemma PlanConcat(a: seq<Entry>, b: seq<Entry>, hooks: map<string, string>)
    ensures TopLevelPlan(a + b, hooks) == TopLevelPlan(a, hooks) + TopLevelPlan(b, hooks)
    ensures SubPagePlan(a + b, hooks) == SubPagePlan(a, hooks) + SubPagePlan(b, hooks)
  {
    TopLevelConcat(a, b, hooks);
    SubPageConcat(a, b, hooks);
  }

  /** The lists of a one-entry registry. */
  lemma SingletonPlan(e: Entry, hooks: map<string, string>)
    ensures TopLevelPlan([e], hooks) == TopLevelOf(e, hooks)
    ensures SubPagePlan([e], hooks) == SubPageOf(e, hooks)
  {
  }

  /**
   * An entry that is not hooked, not an object, or neither promotional nor
   * the apps page causes no removal: the removals are those of the registry
   * without it.
   */
  lemma NonQualifyingEntryIsIgnored(a: seq<Entry>, e: Entry, b: seq<Entry>,
                                    hooks: map<string, string>, page: Option<string>)
    requires !Qualifies(e, hooks)
    ensures ExpectedRemovals(Some(a + [e] + b), hooks, page) == ExpectedRemovals(Some(a + b), hooks, page)
  {
    var ae := a + [e];
    assert TopLevelOf(e, hooks) == [] && SubPageOf(e, hooks) == [];
    assert TopLevelPlan(ae, hooks) == TopLevelPlan(a, hooks) && SubPagePlan(ae, hooks) == SubPagePlan(a, hooks) by {
      PlanConcat(a, [e], hooks);
      SingletonPlan(e, hooks);
    }
    assert TopLevelPlan(ae + b, hooks) == TopLevelPlan(a + b, hooks) by {
      TopLevelConcat(ae, b, hooks);
      TopLevelConcat(a, b, hooks);
    }
    assert SubPagePlan(ae + b, hooks) == SubPagePlan(a + b, hooks) by {
      SubPageConcat(ae, b, hooks);
      SubPageConcat(a, b, hooks);
    }
    assert PlanFor(Some(ae + b), hooks) == PlanFor(Some(a + b), hooks);
  }

  /** A handle is in the top-level list exactly when some top-level entry is hooked to it. */
  lemma {:induction false} TopLevelMembership(entries: seq<Entry>, hooks: map<string, string>, h: string)
    ensures h in TopLevelPlan(entries, hooks) <==>
            exists i :: 0 <= i < |entries| && IsTopLevelEntry(entries[i], hooks) && hooks[entries[i].0] == h
    decreases |entries|
  {
    if entries != [] {
      var n := |entries| - 1;
      var init := entries[..n];
      TopLevelMembership(init, hooks, h);
      if h in TopLevelPlan(entries, hooks) && h !in TopLevelPlan(init, hooks) {
        assert IsTopLevelEntry(entries[n], hooks) && hooks[entries[n].0] == h;
      }
      if exists i :: 0 <= i < |entries| && IsTopLevelEntry(entries[i], hooks) && hooks[entries[i].0] == h {
        var i :| 0 <= i < |entries| && IsTopLevelEntry(entries[i], hooks) && hooks[entries[i].0] == h;
        if i < n {
          assert init[i] == entries[i];
        }
      }
    }
  }

  /** A pair is in the sub-page list exactly when some sub-page entry has that slug and parent. */
  lemma {:induction false} SubPageMembership(entries: seq<Entry>, hooks: map<string, string>, parent: string, slug: string)
    ensures (parent, slug) in SubPagePlan(entries, hooks) <==>
            exists i :: 0 <= i < |entries| && IsSubPageEntry(entries[i], hooks) &&
                        entries[i].0 == slug && ParentOf(entries[i].1) == parent
    decreases |entries|
  {
    if entries != [] {
      var n := |entries| - 1;
      var init := entries[..n];
      SubPageMembership(init, hooks, parent, slug);
      if exists i :: 0 <= i < |entries| && IsSubPageEntry(entries[i], hooks) &&
                     entries[i].0 == slug && ParentOf(entries[i].1) == parent {
        var i :| 0 <= i < |entries| && IsSubPageEntry(entries[i], hooks) &&
                 entries[i].0 == slug && ParentOf(entries[i].1) == parent;
        if i < n {
          assert init[i] == entries[i];
        }
      }
    }
  }

  /** Each qualifying entry lands in exactly one of the two lists, and nothing else does. */
  lemma {:induction false} EveryQualifyingEntryInExactlyOneList(entries: seq<Entry>, hooks: map<string, string>)
    ensures |TopLevelPlan(entries, hooks)| + |SubPagePlan(entries, hooks)| == |QualifyingEntries(entries, hooks)|
    decreases |entries|
  {
    if entries != [] {
      EveryQualifyingEntryInExactlyOneList(entries[..|entries| - 1], hooks);
    }
  }

  /** PHP arrays have distinct keys: no slug occurs twice in the registry. */
  predicate DistinctSlugs(entries: seq<Entry>)
  {
    forall i, j :: 0 <= i < j < |entries| ==> entries[i].0 != entries[j].0
  }

  /** No two top-level entries share a hook handle. */
  predicate DistinctHandles(entries: seq<Entry>, hooks: map<string, string>)
  {
    forall i, j :: 0 <= i < j < |entries| && IsTopLevelEntry(entries[i], hooks) && IsTopLevelEntry(entries[j], hooks) ==>
      hooks[entries[i].0] != hooks[entries[j].0]
  }

  /** The lists of a registry, split around its entry at `i`. */
  lemma PlanSplit(entries: seq<Entry>, hooks: map<string, string>, i: nat)
    requires i < |entries|
    ensures TopLevelPlan(entries, hooks) ==
            TopLevelPlan(entries[..i], hooks) + TopLevelOf(entries[i], hooks) + TopLevelPlan(entries[i + 1..], hooks)
    ensures SubPagePlan(entries, hooks) ==
            SubPagePlan(entries[..i], hooks) + SubPageOf(entries[i], hooks) + SubPagePlan(entries[i + 1..], hooks)
  {
    var e := entries[i];
    var pre, post := entries[..i], entries[i + 1..];
    assert entries == pre + [e] + post;
    PlanConcat(pre + [e], post, hooks);
    PlanConcat(pre, [e], hooks);
    SingletonPlan(e, hooks);
  }

  /** `x` occurs once in `s` when `s` is `pre + [x] + post` and neither side holds it. */
  lemma CountOnce<T>(s: seq<T>, pre: seq<T>, x: T, post: seq<T>)
    requires s == pre + [x] + post && x !in pre && x !in post
    ensures multiset(s)[x] == 1
  {
  }

  /** `x` occurs before `y` in `pre + [y] + post` when `x` occurs in `pre`. */
  lemma OccursBefore<T>(s: seq<T>, pre: seq<T>, x: T, y: T, post: seq<T>)
    requires s == pre + [y] + post && x in pre
    ensures exists ki, kj :: 0 <= ki < kj < |s| && s[ki] == x && s[kj] == y
  {
    var ki :| 0 <= ki < |pre| && pre[ki] == x;
    assert 0 <= ki < |pre| < |s| && s[ki] == x && s[|pre|] == y;
  }

  /** In a registry with distinct slugs, a sub-page entry's pair occurs exactly once in the sub-page list. */
  lemma SubPageListedOnce(entries: seq<Entry>, hooks: map<string, string>, i: nat)
    requires DistinctSlugs(entries)
    requires i < |entries| && IsSubPageEntry(entries[i], hooks)
    ensures multiset(SubPagePlan(entries, hooks))[(ParentOf(entries[i].1), entries[i].0)] == 1
  {
    var e := entries[i];
    var x := (ParentOf(e.1), e.0);
    var pre, post := entries[..i], entries[i + 1..];
    assert x !in SubPagePlan(pre, hooks) by {
      SubPageMembership(pre, hooks, x.0, x.1);
      forall j | 0 <= j < |pre| ensures pre[j].0 != e.0 {
        assert pre[j] == entries[j];
      }
    }
    assert x !in SubPagePlan(post, hooks) by {
      SubPageMembership(post, hooks, x.0, x.1);
      forall j | 0 <= j < |post| ensures post[j].0 != e.0 {
        assert post[j] == entries[i + 1 + j];
      }
    }
    PlanSplit(entries, hooks, i);
    CountOnce(SubPagePlan(entries, hooks), SubPagePlan(pre, hooks), x, SubPagePlan(post, hooks));
  }

  /** When top-level entries have distinct handles, a top-level entry's handle occurs exactly once in the top-level list. */
  lemma TopLevelListedOnce(entries: seq<Entry>, hooks: map<string, string>, i: nat)
    requires DistinctHandles(entries, hooks)
    requires i < |entries| && IsTopLevelEntry(entries[i], hooks)
    ensures multiset(TopLevelPlan(entries, hooks))[hooks[entries[i].0]] == 1
  {
    var e := entries[i];
    var h := hooks[e.0];
    var pre, post := entries[..i], entries[i + 1..];
    assert h !in TopLevelPlan(pre, hooks) by {
      TopLevelMembership(pre, hooks, h);
      forall j | 0 <= j < |pre| && IsTopLevelEntry(pre[j], hooks) ensures hooks[pre[j].0] != h {
        assert pre[j] == entries[j];
      }
    }
    assert h !in TopLevelPlan(post, hooks) by {
      TopLevelMembership(post, hooks, h);
      forall j | 0 <= j < |post| && IsTopLevelEntry(post[j], hooks) ensures hooks[post[j].0] != h {
        assert post[j] == entries[i + 1 + j];
      }
    }
    PlanSplit(entries, hooks, i);
    CountOnce(TopLevelPlan(entries, hooks), TopLevelPlan(pre, hooks), h, TopLevelPlan(post, hooks));
  }

  /** Two top-level entries are removed in the order they occur in the registry. */
  lemma TopLevelKeepsEncounterOrder(entries: seq<Entry>, hooks: map<string, string>, i: nat, j: nat)
    requires i < j < |entries|
    requires IsTopLevelEntry(entries[i], hooks) && IsTopLevelEntry(entries[j], hooks)
    ensures exists ki, kj :: 0 <= ki < kj < |TopLevelPlan(entries, hooks)| &&
              TopLevelPlan(entries, hooks)[ki] == hooks[entries[i].0] &&
              TopLevelPlan(entries, hooks)[kj] == hooks[entries[j].0]
  {
    var pre := entries[..j];
    assert hooks[entries[i].0] in TopLevelPlan(pre, hooks) by {
      TopLevelMembership(pre, hooks, hooks[entries[i].0]);
      assert pre[i] == entries[i];
    }
    PlanSplit(entries, hooks, j);
    OccursBefore(TopLevelPlan(entries, hooks), TopLevelPlan(pre, hooks),
                 hooks[entries[i].0], hooks[entries[j].0], TopLevelPlan(entries[j + 1..], hooks));
  }

  /** Two sub-page entries are removed in the order they occur in the registry. */
  lemma SubPagesKeepEncounterOrder(entries: seq<Entry>, hooks: map<string, string>, i: nat, j: nat)
    requires i < j < |entries|
    requires IsSubPageEntry(entries[i], hooks) && IsSubPageEntry(entries[j], hooks)
    ensures exists ki, kj :: 0 <= ki < kj < |SubPagePlan(entries, hooks)| &&
              SubPagePlan(entries, hooks)[ki] == (ParentOf(entries[i].1), entries[i].0) &&
              SubPagePlan(entries, hooks)[kj] == (ParentOf(entries[j].1), entries[j].0)
  {
    var pre := entries[..j];
    var x := (ParentOf(entries[i].1), entries[i].0);
    assert x in SubPagePlan(pre, hooks) by {
      SubPageMembership(pre, hooks, x.0, x.1);
      assert pre[i] == entries[i];
    }
    PlanSplit(entries, hooks, j);
    OccursBefore(SubPagePlan(entries, hooks), SubPagePlan(pre, hooks),
                 x, (ParentOf(entries[j].1), entries[j].0), SubPagePlan(entries[j + 1..], hooks));
  }

  /** A qualifying item without a callable `get_parent_slug` is removed as a top-level page by its handle. */
  lemma MissingParentAccessorMeansTopLevel(entries: seq<Entry>, hooks: map<string, string>, i: nat)
    requires i < |entries| && Qualifies(entries[i], hooks) && entries[i].1.parentSlug.None?
    ensures hooks[entries[i].0] in TopLevelPlan(entries, hooks)
    ensures forall p :: (p, entries[i].0) in SubPagePlan(entries, hooks) ==>
              exists j :: 0 <= j < |entries| && j != i && entries[j].0 == entries[i].0
  {
    TopLevelMembership(entries, hooks, hooks[entries[i].0]);
    forall p | (p, entries[i].0) in SubPagePlan(entries, hooks)
      ensures exists j :: 0 <= j < |entries| && j != i && entries[j].0 == entries[i].0
    {
      SubPageMembership(entries, hooks, p, entries[i].0);
    }
  }

  // ---------------------------------------------------------------------
  // Properties of the emitted removals
  // ---------------------------------------------------------------------

  /** The removals come in a fixed order: top-level pages, sub-pages, then the fixed ones. */
  lemma RemovalOrder(registry: Option<seq<Entry>>, hooks: map<string, string>, page: Option<string>)
    ensures var plan, r := PlanFor(registry, hooks), ExpectedRemovals(registry, hooks, page);
      var np, ns := |plan.pages|, |plan.subpages|;
      |r| == np + ns + 2 + (if page != Some(AppPage) then 1 else 0) &&
      (forall k :: 0 <= k < np ==> r[k] == RemoveMenuPage(plan.pages[k])) &&
      (forall k :: 0 <= k < ns ==> r[np + k] == RemoveSubmenuPage(plan.subpages[k].0, plan.subpages[k].1)) &&
      r[np + ns] == KnowledgeBaseRemoval &&
      r[np + ns + 1] == GoProRemoval &&
      (page != Some(AppPage) ==> r[np + ns + 2] == LibraryAppRemoval)
  {
    var plan := PlanFor(registry, hooks);
    var menu, sub := MenuRemovals(plan.pages), SubmenuRemovals(plan.subpages);
    var r := ExpectedRemovals(registry, hooks, page);
    assert r == menu + sub + FixedRemovals(page);
    forall k | 0 <= k < |plan.pages| ensures r[k] == RemoveMenuPage(plan.pages[k]) {
      MenuRemovalsAt(plan.pages, k);
    }
    forall k | 0 <= k < |plan.subpages|
      ensures r[|plan.pages| + k] == RemoveSubmenuPage(plan.subpages[k].0, plan.subpages[k].1)
    {
      SubmenuRemovalsAt(plan.subpages, k);
    }
  }

  /** Whatever the request, the knowledge-base and go-pro sub-pages are always removed. */
  lemma FixedSubPagesAlwaysRemoved(registry: Option<seq<Entry>>, hooks: map<string, string>, page: Option<string>)
    ensures KnowledgeBaseRemoval in ExpectedRemovals(registry, hooks, page)
    ensures GoProRemoval in ExpectedRemovals(registry, hooks, page)
  {
  }

  /** The library app sub-page is removed last exactly when the request is not for the `elementor-app` page. */
  lemma LibraryAppRemovalCondition(registry: Option<seq<Entry>>, hooks: map<string, string>, page: Option<string>)
    ensures var r := ExpectedRemovals(registry, hooks, page);
      r[|r| - 1] == LibraryAppRemoval <==> (page.None? || page.value != AppPage)
  {
  }

  /** Without a callable `get_all`, only the fixed removals are issued. */
  lemma NoRegistryOnlyFixedRemovals(hooks: map<string, string>, page: Option<string>)
    ensures ExpectedRemovals(None, hooks, page) ==
            [KnowledgeBaseRemoval, GoProRemoval] + (if page != Some(AppPage) then [LibraryAppRemoval] else [])
  {
  }

  /** Nothing qualifies, so both lists are empty. */
  lemma {:induction false} NothingQualifiesEmptyPlan(entries: seq<Entry>, hooks: map<string, string>)
    requires forall i :: 0 <= i < |entries| ==> !Qualifies(entries[i], hooks)
    ensures TopLevelPlan(entries, hooks) == [] && SubPagePlan(entries, hooks) == []
    decreases |entries|
  {
    if entries != [] {
      var n := |entries| - 1;
      assert forall i :: 0 <= i < n ==> entries[..n][i] == entries[i];
      NothingQualifiesEmptyPlan(entries[..n], hooks);
      assert !Qualifies(entries[n], hooks);
    }
  }

  /** A registry with no qualifying entry also yields only the fixed removals. */
  lemma NothingQualifiesOnlyFixedRemovals(entries: seq<Entry>, hooks: map<string, string>, page: Option<string>)
    requires forall i :: 0 <= i < |entries| ==> !Qualifies(entries[i], hooks)
    ensures ExpectedRemovals(Some(entries), hooks, page) == FixedRemovals(page)
  {
    NothingQualifiesEmptyPlan(entries, hooks);
  }

  /** A promotional item without a parent is removed by its handle, a non-promotional item is ignored. */
  lemma WorkedExample()
    ensures ExpectedRemovals(
              Some([("a", MenuItem(true, false, None)), ("b", MenuItem(false, false, None))]),
              map["a" := "handle-a"], None)
            == [RemoveMenuPage("handle-a"), KnowledgeBaseRemoval, GoProRemoval, LibraryAppRemoval]
  {
    var a, b := ("a", MenuItem(true, false, None)), ("b", MenuItem(false, false, None));
    var hooks := map["a" := "handle-a"];
    assert [a, b] == [a] + [b];
    PlanConcat([a], [b], hooks);
    SingletonPlan(a, hooks);
    SingletonPlan(b, hooks);
    assert IsTopLevelEntry(a, hooks) && !Qualifies(b, hooks);
    assert TopLevelPlan([a, b], hooks) == ["handle-a"];
    assert SubPagePlan([a, b], hooks) == [];
    assert MenuRemovals(["handle-a"]) == [RemoveMenuPage("handle-a")];
    assert SubmenuRemovals([]) == [];
  }
}
