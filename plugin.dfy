/**
 * The plugin's start-up guard (`register_actions`): with Elementor Pro active
 * nothing is hooked; otherwise the five callbacks are registered with
 * WordPress, the menu and admin-bar ones at the latest possible priority.
 */
module Plugin {

  /** The plugin's callbacks. */
  datatype Callback =
    | RemoveAdminPages
    | AdminTopBarCss
    | ModifyAdminBar
    | EditorCss
    | RemoveDashboardWidget

  datatype HookKind = Action | Filter

  /** One `add_action` / `add_filter` call. */
  datatype Registration = Registration(kind: HookKind, hook: string, callback: Callback, priority: int, acceptedArgs: nat)

  /** PHP_INT_MAX on a 64-bit build. */
  const PhpIntMax := 0x7FFF_FFFF_FFFF_FFFF
  /** WordPress' default hook priority and argument count. */
  const DefaultPriority := 10
  const DefaultArgs := 1

  /**
   * `register_actions()`. `hasProCallable` says whether
   * `Elementor\Utils::has_pro` is callable and `hasPro` what it returns when
   * called; it is only called when callable.
   */
  function RegisterActions(hasProCallable: bool, hasPro: bool): (r: seq<Registration>)
    ensures r == [] <==> hasProCallable && hasPro
    ensures r != [] ==> |r| == 5 && forall i, j :: 0 <= i < j < |r| ==> r[i].callback != r[j].callback
    ensures r != [] ==>
      Registration(Action, "elementor/admin/menu/after_register", RemoveAdminPages, PhpIntMax, 2) in r &&
      Registration(Filter, "elementor/frontend/admin_bar/settings", ModifyAdminBar, PhpIntMax, DefaultArgs) in r
  {
    if hasProCallable && hasPro then []
    else
      [ Registration(Action, "elementor/admin/menu/after_register", RemoveAdminPages, PhpIntMax, 2),
        Registration(Action, "elementor/admin_top_bar/before_enqueue_scripts", AdminTopBarCss, DefaultPriority, DefaultArgs),
        Registration(Filter, "elementor/frontend/admin_bar/settings", ModifyAdminBar, PhpIntMax, DefaultArgs),
        Registration(Action, "elementor/editor/after_enqueue_styles", EditorCss, DefaultPriority, DefaultArgs),
        Registration(Action, "wp_dashboard_setup", RemoveDashboardWidget, PhpIntMax, DefaultArgs) ]
  }

  /** When Pro is not detected, every callback is registered. */
  lemma EveryCallbackRegisteredWithoutPro(hasProCallable: bool, hasPro: bool, c: Callback)
    requires !(hasProCallable && hasPro)
    ensures exists i :: 0 <= i < |RegisterActions(hasProCallable, hasPro)| &&
                        RegisterActions(hasProCallable, hasPro)[i].callback == c
  {
    var r := RegisterActions(hasProCallable, hasPro);
    match c
    case RemoveAdminPages => assert r[0].callback == c;
    case AdminTopBarCss => assert r[1].callback == c;
    case ModifyAdminBar => assert r[2].callback == c;
    case EditorCss => assert r[3].callback == c;
    case RemoveDashboardWidget => assert r[4].callback == c;
  }
}
