/**
 * The admin-bar configuration filter of the plugin (`modify_admin_bar`).
 *
 * Elementor passes the configuration of its front-end admin bar through a
 * filter; the plugin drops the "site editor" link from the children of the
 * `elementor_edit_page` node and returns the configuration.
 *
 * PHP arrays are ordered maps: here an array is a sequence of (key, value)
 * pairs in insertion order. `unset` removes one pair and keeps the others,
 * with their keys, in order.
 */
module AdminBar {
  import opened Wrappers

  /** A PHP array key. */
  datatype Key = IntKey(i: int) | StrKey(s: string)

  /** The PHP values the model covers. */
  datatype PhpValue =
    | Null
    | Bool(b: bool)
    | Int(i: int)
    | Str(s: string)
    | Arr(entries: seq<(Key, PhpValue)>)

  const EditPageKey := StrKey("elementor_edit_page")
  const ChildrenKey := StrKey("children")
  const IdKey := StrKey("id")
  const SiteEditorId := "elementor_app_site_editor"

  /** The position of key `k` in an array, if it has that key. */
  function KeyIndex(entries: seq<(Key, PhpValue)>, k: Key): (r: Option<nat>)
    ensures r.Some? ==> r.value < |entries| && entries[r.value].0 == k &&
                        forall j :: 0 <= j < r.value ==> entries[j].0 != k
    ensures r.None? ==> forall j :: 0 <= j < |entries| ==> entries[j].0 != k
  {
    if entries == [] then None
    else if entries[0].0 == k then Some(0)
    else match KeyIndex(entries[1..], k)
      case None => None
      case Some(i) => Some(i + 1)
  }

  /** `$v[$k]` when `$v` is an array holding key `$k` (the value may be null). */
  function Get(v: PhpValue, k: Key): (r: Option<PhpValue>)
    ensures r.Some? <==> v.Arr? && exists j :: 0 <= j < |v.entries| && v.entries[j].0 == k
  {
    if v.Arr? then
      match KeyIndex(v.entries, k)
      case None => None
      case Some(i) => Some(v.entries[i].1)
    else None
  }

  /**
   * The children list: present when the configuration is an array whose
   * `elementor_edit_page` entry is an array whose `children` entry is set
   * (not null) and is itself an array.
   */
  function ChildrenOf(config: PhpValue): Option<seq<(Key, PhpValue)>>
  {
    match Get(config, EditPageKey)
    case Some(page) =>
      (match Get(page, ChildrenKey)
       case Some(Arr(children)) => Some(children)
       case _ => None)
    case None => None
  }

  /** The item is an array whose `id` entry is the string `elementor_app_site_editor`. */
  predicate IsSiteEditor(item: PhpValue)
  {
    Get(item, IdKey) == Some(Str(SiteEditorId))
  }

  /** The configuration with the children list replaced by `children`, in place. */
  function WithChildren(config: PhpValue, children: seq<(Key, PhpValue)>): (r: PhpValue)
    requires ChildrenOf(config).Some?
    ensures r.Arr?
  {
    var pi := KeyIndex(config.entries, EditPageKey).value;
    var page := config.entries[pi].1;
    var ci := KeyIndex(page.entries, ChildrenKey).value;
    Arr(config.entries[pi := (EditPageKey, Arr(page.entries[ci := (ChildrenKey, Arr(children))]))])
  }

  /**
   * `modify_admin_bar( $admin_bar_config )`: removes the first child whose
   * `id` is the site editor's, if any, and returns the configuration.
   */
  method ModifyAdminBar(config: PhpValue) returns (result: PhpValue)
    ensures ChildrenOf(config).None? ==> result == config
    ensures ChildrenOf(config).Some? ==>
      var children := ChildrenOf(config).value;
      ((forall j :: 0 <= j < |children| ==> !IsSiteEditor(children[j].1)) ==> result == config) &&
      (forall i :: 0 <= i < |children| && IsSiteEditor(children[i].1) &&
                   (forall j :: 0 <= j < i ==> !IsSiteEditor(children[j].1)) ==>
         result == WithChildren(config, children[..i] + children[i + 1..]))
    ensures ChildrenOf(config).Some? ==>
      var before := SiteEditorCount(ChildrenOf(config).value);
      ChildrenOf(result).Some? &&
      SiteEditorCount(ChildrenOf(result).value) == if before == 0 then 0 else before - 1
  {
    result := config;
    var found := ChildrenOf(config);
    if found.Some? {
      var children := found.value;
      NoSiteEditorMeansCountZero(children);
      var k := 0;
      while k < |children|
        invariant 0 <= k <= |children|
        invariant result == config
        invariant forall j :: 0 <= j < k ==> !IsSiteEditor(children[j].1)
      {
        if IsSiteEditor(children[k].1) {
          WithChildrenChangesOnlyChildren(config, children[..k] + children[k + 1..]);
          RemovingOneChild(children, k);
          result := WithChildren(config, children[..k] + children[k + 1..]);
          break;
        }
        k := k + 1;
      }
    }
  }

  // ---------------------------------------------------------------------
  // What the in-place update leaves alone
  // ---------------------------------------------------------------------

  /**
   * Replacing the children changes nothing else: the top-level keys and their
   * order, every other top-level value, every other key of the edit-page node,
   * and the children list reads back as the new one.
   */
  lemma WithChildrenChangesOnlyChildren(config: PhpValue, children: seq<(Key, PhpValue)>)
    requires ChildrenOf(config).Some?
    ensures var r := WithChildren(config, children);
      |r.entries| == |config.entries| &&
      (forall j :: 0 <= j < |r.entries| ==> r.entries[j].0 == config.entries[j].0) &&
      (forall j :: 0 <= j < |r.entries| && config.entries[j].0 != EditPageKey ==> r.entries[j] == config.entries[j])
    ensures var r := WithChildren(config, children);
      var page, page' := Get(config, EditPageKey).value, Get(r, EditPageKey).value;
      page.Arr? && page'.Arr? && |page'.entries| == |page.entries| &&
      (forall j :: 0 <= j < |page.entries| ==> page'.entries[j].0 == page.entries[j].0) &&
      (forall j :: 0 <= j < |page.entries| && page.entries[j].0 != ChildrenKey ==> page'.entries[j] == page.entries[j])
    ensures ChildrenOf(WithChildren(config, children)) == Some(children)
  {
  }

  // ---------------------------------------------------------------------
  // What the removal takes out
  // ---------------------------------------------------------------------

  /** The number of site-editor children. */
  function SiteEditorCount(children: seq<(Key, PhpValue)>): nat
  {
    if children == [] then 0
    else (if IsSiteEditor(children[0].1) then 1 else 0) + SiteEditorCount(children[1..])
  }

  lemma {:induction false} SiteEditorCountConcat(a: seq<(Key, PhpValue)>, b: seq<(Key, PhpValue)>)
    ensures SiteEditorCount(a + b) == SiteEditorCount(a) + SiteEditorCount(b)
    decreases |a|
  {
    if a == [] {
      assert a + b == b;
    } else {
      assert (a + b)[1..] == a[1..] + b;
      SiteEditorCountConcat(a[1..], b);
    }
  }

  /**
   * Unsetting the child at `i` removes exactly that pair: one element fewer,
   * the same multiset of pairs but one, and one site-editor child fewer.
   */
  lemma RemovingOneChild(children: seq<(Key, PhpValue)>, i: nat)
    requires i < |children| && IsSiteEditor(children[i].1)
    ensures var rest := children[..i] + children[i + 1..];
      |rest| == |children| - 1 &&
      multiset(rest) + multiset{children[i]} == multiset(children) &&
      SiteEditorCount(rest) == SiteEditorCount(children) - 1
  {
    var pre, post := children[..i], children[i + 1..];
    assert children == pre + [children[i]] + post;
    SiteEditorCountConcat(pre + [children[i]], post);
    SiteEditorCountConcat(pre, [children[i]]);
    SiteEditorCountConcat(pre, post);
    assert SiteEditorCount([children[i]]) == 1 by {
      assert [children[i]][1..] == [];
    }
  }

  /** With no site-editor child at all, the count is zero, and conversely. */
  lemma {:induction false} NoSiteEditorMeansCountZero(children: seq<(Key, PhpValue)>)
    ensures SiteEditorCount(children) == 0 <==> forall j :: 0 <= j < |children| ==> !IsSiteEditor(children[j].1)
    decreases |children|
  {
    if children != [] {
      NoSiteEditorMeansCountZero(children[1..]);
      assert forall j :: 1 <= j < |children| ==> children[1..][j - 1] == children[j];
    }
  }
}
