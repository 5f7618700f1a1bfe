/**
 * components/utilities/Notification.js: the notification record kept by the
 * provider, how `showNotification`, `clearNotifications` and `handleError`
 * change it, and how `handleError` rewrites an error's message.
 */
module Notification {
  import opened Wrappers
  import opened Strings

  /**
   * `notificationState`. `children` is custom content (`None` for a missing
   * one); `kind` is the `type` field.
   */
  datatype NotificationState<C> = NotificationState(
    dismissTimeout: int,
    children: Option<C>,
    message: string,
    kind: string,
    show: bool)

  /** `DEFAULT_NOTIFICATION_STATE` */
  function DefaultState<C>(): (s: NotificationState<C>)
    ensures !s.show && s.dismissTimeout == 3000 && s.kind == "success" && s.message == "" && s.children == None
  {
    NotificationState(3000, None, "", "success", false)
  }

  /** `a || b` for a string that may be missing. */
  function OrElse(a: Option<string>, b: string): string {
    if a.Some? && a.value != "" then a.value else b
  }

  /** `level || type || "success"`: the first non-empty of the two, else `"success"`. */
  function NotificationType(level: Option<string>, kind: Option<string>): (t: string)
    ensures t != ""
    ensures t == "success" || (level.Some? && t == level.value) || (kind.Some? && t == kind.value)
    ensures level.Some? && level.value != "" ==> t == level.value
    ensures (level.None? || level.value == "") && kind.Some? && kind.value != "" ==> t == kind.value
    ensures (level.None? || level.value == "") && (kind.None? || kind.value == "") ==> t == "success"
  {
    OrElse(level, OrElse(kind, "success"))
  }

  /** The wait before the new record is stored: longer when one is already on screen. */
  function ShowDelay(shown: bool): (d: nat)
    ensures d > 0
    ensures shown <==> d == 150
  {
    if shown then 150 else 1
  }

  /**
   * The record `showNotification` stores: the previous one with the new
   * type, children and message, shown; `dismissTimeout` replaced only by a
   * positive one.
   */
  function Shown<C>(s: NotificationState<C>, children: Option<C>, message: string,
                    kind: Option<string>, level: Option<string>, dismissTimeout: Option<int>): (r: NotificationState<C>)
    ensures r.show && r.message == message && r.children == children
    ensures r.dismissTimeout == s.dismissTimeout || r.dismissTimeout > 0
  {
    var next := s.(kind := NotificationType(level, kind), children := children, message := message, show := true);
    if dismissTimeout.Some? && dismissTimeout.value > 0 then next.(dismissTimeout := dismissTimeout.value) else next
  }

  /** The dismiss timeout is positive in the default record and stays so. */
  lemma ShownKeepsPositiveTimeout<C>(s: NotificationState<C>, children: Option<C>, message: string,
                                     kind: Option<string>, level: Option<string>, dismissTimeout: Option<int>)
    requires s.dismissTimeout > 0
    ensures var r := Shown(s, children, message, kind, level, dismissTimeout);
      && r.show && r.message == message && r.children == children
      && r.kind == NotificationType(level, kind)
      && r.dismissTimeout > 0
      && r.dismissTimeout == (if dismissTimeout.Some? && dismissTimeout.value > 0 then dismissTimeout.value else s.dismissTimeout)
  {
  }

  /** The delay of the auto-dismiss timer: `dismissTimeout || 3000`. */
  function AutoDismissDelay<C>(s: NotificationState<C>): (d: int)
    ensures s.dismissTimeout > 0 ==> d == s.dismissTimeout
    ensures s.dismissTimeout != 0 ==> d == s.dismissTimeout
    ensures s.dismissTimeout == 0 ==> d == 3000
    ensures d != 0
  {
    if s.dismissTimeout != 0 then s.dismissTimeout else 3000
  }

  const NetworkErrorText := "Network error! Please try again later."
  const UnknownErrorText := "Unknown error! Please try again later."

  /** The message `handleError` leaves on the error; `None` is a missing message. */
  function NormalizeMessage(m: Option<string>): (r: string)
    ensures m.None? || m.value == "" ==> r == UnknownErrorText
    ensures m.Some? && Contains(m.value, "Network error") ==> r == NetworkErrorText
    ensures m.Some? && m.value != "" && !Contains(m.value, "Network error") ==>
      r == ReplaceFirst(m.value, "GraphQL error: ", "")
  {
    if m.Some? && m.value != "" then
      if Contains(m.value, "Network error") then NetworkErrorText
      else ReplaceFirst(m.value, "GraphQL error: ", "")
    else UnknownErrorText
  }

  /** Only the first `"GraphQL error: "` prefix-marker goes; a second one stays. */
  lemma GraphQLPrefixRemovedOnce(rest: string)
    requires !Contains("GraphQL error: " + rest, "Network error")
    ensures NormalizeMessage(Some("GraphQL error: " + rest)) == rest
  {
    var s := "GraphQL error: " + rest;
    assert OccursAt(s, "GraphQL error: ", 0);
    assert s[15..] == rest;
  }

  /** A message without the marker and without `"Network error"` is kept as it is. */
  lemma PlainMessageKept(m: string)
    requires m != "" && !Contains(m, "Network error") && !Contains(m, "GraphQL error: ")
    ensures NormalizeMessage(Some(m)) == m
  {
  }

  /** `error.type ? error.type : "danger"` */
  function ErrorType(kind: Option<string>): (t: string)
    ensures t != ""
    ensures kind.Some? && kind.value != "" ==> t == kind.value
    ensures kind.None? || kind.value == "" ==> t == "danger"
  {
    OrElse(kind, "danger")
  }

  /** The error object `handleError` receives and rewrites. */
  class AppError {
    var message: Option<string>
    var kind: Option<string>

    constructor (message: Option<string>, kind: Option<string>)
      ensures this.message == message && this.kind == kind
    {
      this.message := message;
      this.kind := kind;
    }
  }

  /** The provider: `notificationState` and the functions it hands out. */
  class NotificationCenter<C> {
    var state: NotificationState<C>

    /** The timer delay never falls back to 0: `dismissTimeout` stays positive. */
    ghost predicate Valid()
      reads this
    {
      state.dismissTimeout > 0
    }

    constructor ()
      ensures Valid() && state == DefaultState()
    {
      state := DefaultState();
    }

    /**
     * `showNotification`: returns the delay after which the new record is
     * stored, and stores it.
     */
    method ShowNotification(children: Option<C>, message: string, kind: Option<string>,
                            level: Option<string>, dismissTimeout: Option<int>) returns (delay: nat)
      requires Valid()
      modifies this
      ensures Valid()
      ensures delay == ShowDelay(old(state.show))
      ensures state == Shown(old(state), children, message, kind, level, dismissTimeout)
    {
      delay := 1;
      if state.show {
        delay := 150;
      }
      var next := state.(kind := NotificationType(level, kind), children := children, message := message, show := true);
      if dismissTimeout.Some? && dismissTimeout.value > 0 {
        next := next.(dismissTimeout := dismissTimeout.value);
      }
      state := next;
    }

    /**
     * The effect on `show`: when a notification is shown, a timer of
     * `AutoDismissDelay` hides it again (the delay is returned); when none
     * is shown, no timer is set.
     */
    method AutoDismiss() returns (delay: Option<int>)
      requires Valid()
      modifies this
      ensures Valid()
      ensures old(state.show) ==> delay == Some(old(state.dismissTimeout)) && state == old(state).(show := false)
      ensures !old(state.show) ==> delay == None && state == old(state)
    {
      if !state.show {
        return None;
      }
      delay := Some(AutoDismissDelay(state));
      state := state.(show := false);
    }

    /** `clearNotifications`: hide, keep everything else. */
    method ClearNotifications()
      requires Valid()
      modifies this
      ensures Valid()
      ensures state == old(state).(show := false)
    {
      state := state.(show := false);
    }

    /**
     * `handleError`: rewrite the error's message, then show it with the
     * error's type, or `"danger"`.
     */
    method HandleError(error: AppError) returns (delay: nat)
      requires Valid()
      modifies this, error
      ensures Valid()
      ensures error.message == Some(NormalizeMessage(old(error.message)))
      ensures error.kind == old(error.kind)
      ensures delay == ShowDelay(old(state.show))
      ensures state == Shown(old(state), None, NormalizeMessage(old(error.message)), Some(ErrorType(error.kind)), None, None)
    {
      if error.message.Some? && error.message.value != "" {
        if Contains(error.message.value, "Network error") {
          error.message := Some(NetworkErrorText);
        } else {
          error.message := Some(ReplaceFirst(error.message.value, "GraphQL error: ", ""));
        }
      } else {
        error.message := Some(UnknownErrorText);
      }
      delay := ShowNotification(None, error.message.value, Some(if error.kind.Some? && error.kind.value != "" then error.kind.value else "danger"), None, None);
    }
  }

  /** An error shown by `handleError` is shown with type `danger` unless it names its own. */
  lemma HandledErrorType<C>(s: NotificationState<C>, message: string, kind: Option<string>)
    ensures Shown(s, None, message, Some(ErrorType(kind)), None, None).kind ==
      (if kind.Some? && kind.value != "" then kind.value else "danger")
  {
  }
}
