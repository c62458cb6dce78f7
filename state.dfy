/**
 * The application-wide state: window size, background colour, the two display toggles,
 * the drag flag, and the queue of notifications ("toasts") shown on top of the image.
 * `AppConfig::default` supplies the initial values.
 */
module State {
  import opened Wrappers
  import opened Numeric
  import opened Utils

  datatype Color32 = Color32(r: u8, g: u8, b: u8, a: u8)

  datatype AppConfig = AppConfig(backgroundColor: Color32, maintainAspectRatio: bool,
                                 showInfo: bool, notificationDurationMillis: nat,
                                 defaultUiScale: real)

  /** `AppConfig::default`: background #1B1B1B (opaque), aspect ratio kept, no info panel, 500 ms toasts. */
  function DefaultConfig(): (cfg: AppConfig)
    ensures cfg.backgroundColor == Color32(0x1B, 0x1B, 0x1B, 0xFF)
    ensures cfg.maintainAspectRatio && !cfg.showInfo
    ensures cfg.notificationDurationMillis == 500 && cfg.defaultUiScale == 1.25
  {
    AppConfig(Color32(27, 27, 27, 255), true, false, 500, 1.25)
  }

  /** A basic toast and how long it stays up, in milliseconds (none: until dismissed). */
  datatype Toast = Toast(message: string, duration: Option<nat>)

  /** Everything `AppState` holds; the toast queue is the list of toasts issued so far. */
  datatype AppView = AppView(windowSize: Vec2, backgroundColor: Color32,
                             maintainAspectRatio: bool, showInfo: bool, dragging: bool,
                             toasts: seq<Toast>, notificationDuration: Option<nat>)

  function BoolText(b: bool): string {
    if b then "true" else "false"
  }

  /** The toast `toggle_show_info` issues, naming the new value of the flag. */
  function ShowInfoMessage(showInfo: bool): string {
    "Show info: " + BoolText(showInfo)
  }

  /** The message names the flag's value: different values give different messages. */
  lemma ShowInfoMessageNamesValue(a: bool, b: bool)
    ensures ShowInfoMessage(a) == ShowInfoMessage(b) <==> a == b
  {
    if ShowInfoMessage(a) == ShowInfoMessage(b) {
      assert ShowInfoMessage(a)[11] == ShowInfoMessage(b)[11];
    }
  }

  /** `notify`: one more toast, lasting the configured duration. */
  function Notified(v: AppView, message: string): AppView {
    v.(toasts := v.toasts + [Toast(message, v.notificationDuration)])
  }

  function AspectToggled(v: AppView): AppView {
    v.(maintainAspectRatio := !v.maintainAspectRatio)
  }

  function InfoToggled(v: AppView): AppView {
    Notified(v.(showInfo := !v.showInfo), ShowInfoMessage(!v.showInfo))
  }

  /**
   * Both toggles negate their flag and leave window size, background and drag state alone;
   * `toggle_show_info` adds exactly one toast, carrying the new value with the configured
   * duration, after the earlier ones.
   */
  lemma TogglesKeepTheRest(v: AppView)
    ensures var w := AspectToggled(v);
            && w.maintainAspectRatio == !v.maintainAspectRatio
            && w == v.(maintainAspectRatio := w.maintainAspectRatio)
    ensures var w := InfoToggled(v);
            && w.showInfo == !v.showInfo
            && w.windowSize == v.windowSize && w.backgroundColor == v.backgroundColor
            && w.dragging == v.dragging && w.maintainAspectRatio == v.maintainAspectRatio
            && |w.toasts| == |v.toasts| + 1 && w.toasts[..|v.toasts|] == v.toasts
            && w.toasts[|v.toasts|] == Toast(ShowInfoMessage(w.showInfo), v.notificationDuration)
  {
    var w := InfoToggled(v);
    assert w.toasts[..|v.toasts|] == v.toasts;
  }

  /** Toggling twice restores the flags; the info toggle leaves its two toasts behind. */
  lemma ToggleTwice(v: AppView)
    ensures AspectToggled(AspectToggled(v)) == v
    ensures InfoToggled(InfoToggled(v)) ==
            v.(toasts := v.toasts + [Toast(ShowInfoMessage(!v.showInfo), v.notificationDuration),
                                     Toast(ShowInfoMessage(v.showInfo), v.notificationDuration)])
  {
    var w := InfoToggled(InfoToggled(v));
    assert w.toasts == v.toasts + [Toast(ShowInfoMessage(!v.showInfo), v.notificationDuration)]
                                + [Toast(ShowInfoMessage(v.showInfo), v.notificationDuration)];
  }

  class AppState {
    var windowSize: Vec2
    var backgroundColor: Color32
    var maintainAspectRatio: bool
    var showInfo: bool
    var dragging: bool
    var toasts: seq<Toast>
    var notificationDuration: Option<nat>

    function View(): AppView
      reads this
    {
      AppView(windowSize, backgroundColor, maintainAspectRatio, showInfo, dragging, toasts,
              notificationDuration)
    }

    /** The application state `App::new` builds from the configuration. */
    constructor (cfg: AppConfig)
      ensures View() == AppView(Vec2(0.0, 0.0), cfg.backgroundColor, cfg.maintainAspectRatio,
                                cfg.showInfo, false, [], Some(cfg.notificationDurationMillis))
    {
      windowSize := Vec2(0.0, 0.0);
      backgroundColor := cfg.backgroundColor;
      maintainAspectRatio := cfg.maintainAspectRatio;
      showInfo := cfg.showInfo;
      dragging := false;
      toasts := [];
      notificationDuration := Some(cfg.notificationDurationMillis);
    }

    method ToggleMaintainAspectRatio()
      modifies this
      ensures View() == AspectToggled(old(View()))
    {
      maintainAspectRatio := !maintainAspectRatio;
    }

    method ToggleShowInfo()
      modifies this
      ensures View() == InfoToggled(old(View()))
    {
      showInfo := !showInfo;
      Notify(ShowInfoMessage(showInfo));
    }

    method Notify(message: string)
      modifies this
      ensures View() == Notified(old(View()), message)
    {
      toasts := toasts + [Toast(message, notificationDuration)];
    }
  }
}
