/**
 * Error surfacing along the UIKit responder chain.
 *
 * `present(error:)` on a responder that is not a window passes the error,
 * run through `willPresent(error:)`, to its `next` responder. The first window
 * reached looks for the topmost view controller above its root controller and
 * presents on it an alert built from the error: its description as title, its
 * failure reason and recovery suggestion as message, one action per recovery
 * option and a closing "Cancel" action.
 *
 * The hierarchy is read-only during the walk, so responders and view
 * controllers are values: a responder holds its `next` responder, a view
 * controller the controller it presents. Both are finite by construction.
 */
module UIResponder {
  import opened Wrappers

  // ---------------------------------------------------------------------
  // Errors and alerts
  // ---------------------------------------------------------------------

  /** An error as the alert reads it once bridged to `NSError`. */
  datatype PresentableError = PresentableError(
    localizedDescription: string,
    localizedFailureReason: Option<string>,
    localizedRecoverySuggestion: Option<string>,
    localizedRecoveryOptions: Option<seq<string>>)

  /** What a recovery handler passes to `attemptRecovery(fromError:optionIndex:)`. */
  datatype RecoveryAttempt = RecoveryAttempt(error: PresentableError, optionIndex: nat)

  datatype ActionStyle = Default | Cancel

  datatype AlertAction = AlertAction(title: string, style: ActionStyle, handler: Option<RecoveryAttempt>)

  /** A `UIAlertController` of the `.alert` style. */
  datatype Alert = Alert(title: string, message: string, actions: seq<AlertAction>)

  /** The action every alert ends with. */
  const CancelAction := AlertAction("Cancel", Cancel, None)

  /** The action offered for recovery option `i` of `e`. */
  function RecoveryAction(e: PresentableError, options: seq<string>, i: nat): AlertAction
    requires i < |options|
  {
    AlertAction(options[i], Default, Some(RecoveryAttempt(e, i)))
  }

  /** The recovery options, none when the error offers no list. */
  function RecoveryOptions(e: PresentableError): seq<string> {
    e.localizedRecoveryOptions.GetOr([])
  }

  // ---------------------------------------------------------------------
  // View controllers
  // ---------------------------------------------------------------------

  datatype Content = Screen(id: nat) | AlertContent(alert: Alert)

  /** A view controller and the controller it currently presents, if any. */
  datatype ViewController = ViewController(content: Content, presentedViewController: Option<ViewController>)

  /** The controller that shows `alert`, presenting nothing yet. */
  function AlertController(alert: Alert): ViewController {
    ViewController(AlertContent(alert), None)
  }

  /** The controllers from `vc` upwards along `presentedViewController`. */
  function Chain(vc: ViewController): (c: seq<ViewController>)
    ensures |c| >= 1 && c[0] == vc
    ensures forall i :: 0 <= i < |c| - 1 ==> c[i].presentedViewController == Some(c[i + 1])
    ensures c[|c| - 1].presentedViewController.None?
    decreases vc
  {
    match vc.presentedViewController
    case None => [vc]
    case Some(p) => [vc] + Chain(p)
  }

  /** What the stack from `vc` upwards shows, bottom first. */
  function Contents(vc: ViewController): (s: seq<Content>)
    decreases vc
  {
    match vc.presentedViewController
    case None => [vc.content]
    case Some(p) => [vc.content] + Contents(p)
  }

  /** The end of the `presentedViewController` chain: where a new alert is hosted. */
  function Topmost(vc: ViewController): (host: ViewController)
    ensures host in Chain(vc)
    ensures host == Chain(vc)[|Chain(vc)| - 1]
    ensures host.presentedViewController.None?
    decreases vc
  {
    match vc.presentedViewController
    case None => vc
    case Some(p) => Topmost(p)
  }

  /** The chain has exactly one controller presenting nothing, and it is the host. */
  lemma {:induction false} HostIsUnique(vc: ViewController, x: ViewController)
    requires x in Chain(vc) && x.presentedViewController.None?
    ensures x == Topmost(vc)
    decreases vc
  {
    match vc.presentedViewController
    case None =>
    case Some(p) =>
      assert Chain(vc) == [vc] + Chain(p);
      HostIsUnique(p, x);
  }

  /**
   * The loop that finds the host: follow `presentedViewController` links from
   * the root until a controller presents nothing.
   */
  method FindHost(root: ViewController) returns (host: ViewController)
    ensures host == Topmost(root)
  {
    var viewController := root;
    while viewController.presentedViewController.Some?
      invariant Topmost(viewController) == Topmost(root)
      decreases viewController
    {
      viewController := viewController.presentedViewController.value;
    }
    host := viewController;
  }

  /**
   * `present(_:animated:)` on the topmost controller of the stack from `vc`:
   * the stack afterwards, with `top` presented by the former host.
   */
  function PresentOnTop(vc: ViewController, top: ViewController): ViewController
    decreases vc
  {
    match vc.presentedViewController
    case None => vc.(presentedViewController := Some(top))
    case Some(p) => vc.(presentedViewController := Some(PresentOnTop(p, top)))
  }

  /** Presenting appends to the stack and leaves everything below as it was. */
  lemma {:induction false} PresentOnTopAppends(vc: ViewController, top: ViewController)
    ensures Contents(PresentOnTop(vc, top)) == Contents(vc) + Contents(top)
    ensures Topmost(PresentOnTop(vc, top)) == Topmost(top)
    decreases vc
  {
    match vc.presentedViewController
    case None =>
    case Some(p) =>
      PresentOnTopAppends(p, top);
  }

  /** Presenting places `top` on the host: the controller below it is the old host, now presenting `top`. */
  lemma {:induction false} PresentOnTopPlacesOnHost(vc: ViewController, top: ViewController)
    ensures |Chain(PresentOnTop(vc, top))| == |Chain(vc)| + |Chain(top)|
    ensures Chain(PresentOnTop(vc, top))[|Chain(vc)| - 1] == Topmost(vc).(presentedViewController := Some(top))
    decreases vc
  {
    match vc.presentedViewController
    case None =>
    case Some(p) =>
      PresentOnTopPlacesOnHost(p, top);
  }

  /** Presenting an alert adds exactly that alert, on top of the stack. */
  lemma PresentAlertAddsOneAlert(root: ViewController, alert: Alert)
    ensures Contents(PresentOnTop(root, AlertController(alert))) == Contents(root) + [AlertContent(alert)]
    ensures Topmost(PresentOnTop(root, AlertController(alert))) == AlertController(alert)
  {
    PresentOnTopAppends(root, AlertController(alert));
  }

  // ---------------------------------------------------------------------
  // Building the alert
  // ---------------------------------------------------------------------

  /** `compactMap { $0 }`: the present items, in order. */
  function Compact(items: seq<Option<string>>): seq<string> {
    if |items| == 0 then []
    else (if items[0].Some? then [items[0].value] else []) + Compact(items[1..])
  }

  /** The items of a two-element list that are present, in order. */
  lemma CompactPair(a: Option<string>, b: Option<string>)
    ensures Compact([a, b]) == (if a.Some? then [a.value] else []) + (if b.Some? then [b.value] else [])
  {
    assert [a, b][1..] == [b];
    assert [b][1..] == [];
    assert Compact([b]) == (if b.Some? then [b.value] else []) + Compact([]);
    assert Compact([a, b]) == (if a.Some? then [a.value] else []) + Compact([b]);
  }

  /** `joined(separator:)`. */
  function Join(parts: seq<string>, separator: string): string {
    if |parts| == 0 then ""
    else if |parts| == 1 then parts[0]
    else parts[0] + separator + Join(parts[1..], separator)
  }

  lemma JoinPair(a: string, b: string, separator: string)
    ensures Join([a, b], separator) == a + separator + b
  {
  }

  /** The alert message: failure reason and recovery suggestion, those present, one per line. */
  function Message(e: PresentableError): (m: string)
    ensures e.localizedFailureReason.None? && e.localizedRecoverySuggestion.None? ==> m == ""
    ensures e.localizedFailureReason.Some? && e.localizedRecoverySuggestion.None? ==>
              m == e.localizedFailureReason.value
    ensures e.localizedFailureReason.None? && e.localizedRecoverySuggestion.Some? ==>
              m == e.localizedRecoverySuggestion.value
    ensures e.localizedFailureReason.Some? && e.localizedRecoverySuggestion.Some? ==>
              m == e.localizedFailureReason.value + "\n" + e.localizedRecoverySuggestion.value
  {
    var items := [e.localizedFailureReason, e.localizedRecoverySuggestion];
    CompactPair(e.localizedFailureReason, e.localizedRecoverySuggestion);
    JoinPair(e.localizedFailureReason.GetOr(""), e.localizedRecoverySuggestion.GetOr(""), "\n");
    Join(Compact(items), "\n")
  }

  /** The actions for the first `n` recovery options, each tied to its own index. */
  function RecoveryActions(e: PresentableError, options: seq<string>, n: nat): (actions: seq<AlertAction>)
    requires n <= |options|
    ensures |actions| == n
    ensures forall i :: 0 <= i < n ==>
              actions[i].title == options[i] && actions[i].style == Default &&
              actions[i].handler == Some(RecoveryAttempt(e, i))
    decreases n
  {
    if n == 0 then [] else RecoveryActions(e, options, n - 1) + [RecoveryAction(e, options, n - 1)]
  }

  /** The alert `present(error:)` builds for `e`. */
  function AlertFor(e: PresentableError): (alert: Alert)
    ensures alert.title == e.localizedDescription
    ensures alert.message == Message(e)
    ensures |alert.actions| == |RecoveryOptions(e)| + 1
    ensures forall i :: 0 <= i < |RecoveryOptions(e)| ==>
              alert.actions[i].title == RecoveryOptions(e)[i] && alert.actions[i].style == Default &&
              alert.actions[i].handler == Some(RecoveryAttempt(e, i))
    ensures alert.actions[|alert.actions| - 1] == CancelAction
    ensures forall i :: 0 <= i < |alert.actions| ==>
              (alert.actions[i].handler.None? <==> i == |alert.actions| - 1)
  {
    var options := RecoveryOptions(e);
    Alert(e.localizedDescription, Message(e), RecoveryActions(e, options, |options|) + [CancelAction])
  }

  /**
   * Builds the alert the way the source does: one `addAction` per recovery
   * option, in index order, then the cancel action.
   */
  method MakeAlert(e: PresentableError) returns (alert: Alert)
    ensures alert == AlertFor(e)
  {
    var actions: seq<AlertAction> := [];
    if e.localizedRecoveryOptions.Some? {
      var options := e.localizedRecoveryOptions.value;
      for index := 0 to |options|
        invariant actions == RecoveryActions(e, options, index)
      {
        actions := actions + [AlertAction(options[index], Default, Some(RecoveryAttempt(e, index)))];
      }
    }
    actions := actions + [CancelAction];
    alert := Alert(e.localizedDescription, Message(e), actions);
  }

  // ---------------------------------------------------------------------
  // Responders and the transform hook
  // ---------------------------------------------------------------------

  /** A responder: a window with its optional root controller, or any other responder. */
  datatype Responder =
    | Window(rootViewController: Option<ViewController>, next: Option<Responder>)
    | Plain(next: Option<Responder>)

  /**
   * The application delegate. `None` in `willPresentError` is the protocol
   * extension's `application(_:willPresentError:)`, the only one a call
   * through `UIApplicationDelegate` reaches, since the protocol declares no
   * such requirement. `Some(hook)` stands for a replacement the source never
   * dispatches to; it is kept to show that `present(error:)` ignores the hook.
   */
  datatype AppDelegate = AppDelegate(willPresentError: Option<PresentableError -> PresentableError>)

  /** What `UIApplication.shared` contributes: its optional delegate. */
  datatype Application = Application(delegate: Option<AppDelegate>)

  /** `application(_:willPresentError:)`; the protocol extension returns the error unchanged. */
  function DelegateWillPresent(d: AppDelegate, e: PresentableError): (r: PresentableError)
    ensures d.willPresentError.None? ==> r == e
    ensures d.willPresentError.Some? ==> r == d.willPresentError.value(e)
  {
    match d.willPresentError
    case None => e
    case Some(hook) => hook(e)
  }

  /** `willPresent(error:)`: identity except on a window, which asks the application delegate. */
  function WillPresent(r: Responder, app: Application, e: PresentableError): (out: PresentableError)
    ensures !r.Window? ==> out == e
    ensures r.Window? && app.delegate.None? ==> out == e
    ensures r.Window? && app.delegate.Some? ==> out == DelegateWillPresent(app.delegate.value, e)
  {
    if r.Window? then
      match app.delegate
      case None => e
      case Some(d) => DelegateWillPresent(d, e)
    else e
  }

  /** With the protocol extension's hook, `willPresent(error:)` is the identity on every responder. */
  lemma WillPresentIsIdentityWithDefaultHook(r: Responder, app: Application, e: PresentableError)
    requires app.delegate.Some? ==> app.delegate.value.willPresentError.None?
    ensures WillPresent(r, app, e) == e
  {
  }

  /** The hook can only change an error on a window whose delegate carries a replacement hook. */
  lemma WillPresentChangesOnlyThroughDelegate(r: Responder, app: Application, e: PresentableError)
    requires WillPresent(r, app, e) != e
    ensures r.Window? && app.delegate.Some? && app.delegate.value.willPresentError.Some?
  {
  }

  // ---------------------------------------------------------------------
  // The chain walk
  // ---------------------------------------------------------------------

  /** The responders from `r` along `next`. */
  function ResponderChain(r: Responder): (c: seq<Responder>)
    ensures |c| >= 1 && c[0] == r
    ensures forall i :: 0 <= i < |c| - 1 ==> c[i].next == Some(c[i + 1])
    ensures c[|c| - 1].next.None?
    decreases r
  {
    match r.next
    case None => [r]
    case Some(n) => [r] + ResponderChain(n)
  }

  /** The index of the first window in `ResponderChain(r)`, or its length when there is none. */
  function FirstWindowAt(r: Responder): (k: nat)
    ensures k <= |ResponderChain(r)|
    ensures forall j :: 0 <= j < k ==> !ResponderChain(r)[j].Window?
    ensures k < |ResponderChain(r)| ==> ResponderChain(r)[k].Window?
    decreases r
  {
    if r.Window? then 0
    else match r.next
      case None => 1
      case Some(n) => 1 + FirstWindowAt(n)
  }

  /** What a window with root controller `root` does: the host, the alert and the stack afterwards. */
  datatype Presentation = Presentation(host: ViewController, alert: Alert, stack: ViewController)

  function Show(root: ViewController, e: PresentableError): Presentation {
    var alert := AlertFor(e);
    Presentation(Topmost(root), alert, PresentOnTop(root, AlertController(alert)))
  }

  /**
   * `present(error:)` as a value: `None` when it returns `false`, otherwise
   * what was presented. It shows on the first window of the chain exactly when
   * that window has a root controller, and it shows the original error.
   */
  function Present(r: Responder, app: Application, e: PresentableError): (shown: Option<Presentation>)
    ensures var c, k := ResponderChain(r), FirstWindowAt(r);
            shown.Some? <==> k < |c| && c[k].rootViewController.Some?
    ensures var c, k := ResponderChain(r), FirstWindowAt(r);
            shown.Some? ==> shown.value == Show(c[k].rootViewController.value, e)
    decreases r
  {
    match r
    case Plain(next) =>
      (match next
       case None => None
       case Some(n) => Present(n, app, WillPresent(r, app, e)))
    case Window(root, _) =>
      (match root
       case None => None
       case Some(vc) => Some(Show(vc, e)))
  }

  /** The `Bool` that `present(error:)` returns. */
  function PresentResult(r: Responder, app: Application, e: PresentableError): bool {
    Present(r, app, e).Some?
  }

  /**
   * `present(error:)` as the source runs it: recursion along `next`, then
   * on the window the host search loop, the alert built action by action and
   * the final presentation.
   */
  method PresentError(r: Responder, app: Application, e: PresentableError) returns (ok: bool, shown: Option<Presentation>)
    ensures shown == Present(r, app, e)
    ensures ok == PresentResult(r, app, e)
    ensures shown.Some? ==>
              var c := Chain(shown.value.stack);
              |c| >= 2 && c[|c| - 2] == shown.value.host.(presentedViewController := Some(AlertController(shown.value.alert)))
    decreases r
  {
    match r
    case Plain(next) =>
      if next.None? {
        return false, None;
      }
      ok, shown := PresentError(next.value, app, WillPresent(r, app, e));
    case Window(root, _) =>
      if root.None? {
        return false, None;
      }
      var host := FindHost(root.value);
      var alert := MakeAlert(e);
      var stack := PresentOnTop(root.value, AlertController(alert));
      PresentOnTopPlacesOnHost(root.value, AlertController(alert));
      shown := Some(Presentation(host, alert, stack));
      ok := true;
  }

  /** A first window replaced below by `beyond`: the responders past it. */
  function RewireBeyondWindow(r: Responder, beyond: Option<Responder>): (r': Responder)
    decreases r
  {
    match r
    case Window(root, _) => Window(root, beyond)
    case Plain(next) =>
      (match next
       case None => r
       case Some(n) => Plain(Some(RewireBeyondWindow(n, beyond))))
  }

  /** No responder past the first window is consulted. */
  lemma {:induction false} PresentStopsAtFirstWindow(r: Responder, beyond: Option<Responder>, app: Application, e: PresentableError)
    ensures Present(RewireBeyondWindow(r, beyond), app, e) == Present(r, app, e)
    decreases r
  {
    match r
    case Window(_, _) =>
    case Plain(next) =>
      match next
      case None =>
      case Some(n) =>
        PresentStopsAtFirstWindow(n, beyond, app, e);
  }

  /** A responder with no window before the end of its chain presents nothing. */
  lemma NoWindowPresentsNothing(r: Responder, app: Application, e: PresentableError)
    requires forall i :: 0 <= i < |ResponderChain(r)| ==> !ResponderChain(r)[i].Window?
    ensures !PresentResult(r, app, e)
  {
  }

  /**
   * The application delegate's hook is never reached from `present(error:)`:
   * non-windows pass the error on unchanged and the window does not call the hook.
   */
  lemma PresentNeverConsultsDelegate(r: Responder, app1: Application, app2: Application, e: PresentableError)
    ensures Present(r, app1, e) == Present(r, app2, e)
  {
  }

  /** Every recovery handler of a presented alert recovers from the error it was given. */
  lemma PresentedHandlersUseOriginalError(r: Responder, app: Application, e: PresentableError, i: nat)
    requires Present(r, app, e).Some?
    requires i < |Present(r, app, e).value.alert.actions|
    requires Present(r, app, e).value.alert.actions[i].handler.Some?
    ensures Present(r, app, e).value.alert.actions[i].handler.value == RecoveryAttempt(e, i)
  {
  }
}
