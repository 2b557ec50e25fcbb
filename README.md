# Error presentation along the responder chain

This project models the error-surfacing extension of `UIResponder` in SNUXKit,
and proves properties of that model in Dafny.

- **`present(error:)`.** A responder that is not a window runs the error through its own `willPresent(error:)` and hands it to its `next` responder. With no `next`, the answer is `false`.
- **The first window.** The first window reached stops the walk.
  - With no root view controller, the window returns `false`.
  - Otherwise it follows `presentedViewController` links to the topmost controller.
  - It builds an alert and presents it on that controller.
- **The alert.**
  - Its title is the error's description.
  - Its message is the failure reason and the recovery suggestion, the ones present, joined by a line break.
  - It has one action per recovery option, in index order. Each action's handler is tied to the error and the option's index.
  - A handler-less `Cancel` action always comes last.
- **`willPresent(error:)`.** It is the identity on non-windows. On a window it calls `application(_:willPresentError:)` on the application delegate. That method exists only in a protocol extension, not as a protocol requirement, so the call always reaches the extension's version, which returns the error unchanged.

Files:

- `wrappers.dfy` holds Swift's optionals as `Option`.
- `uiresponder.dfy` holds the model. The responders and view controllers are immutable values: a responder holds its `next` responder, and a controller holds the controller it presents. Both chains are finite by construction.
  - `Present` is the specification function. It returns `None` for `false`, and otherwise what was presented.
  - `PresentError` follows the source's control flow. It recurses along `next`. On the window it runs the host-search loop `FindHost`, builds the alert action by action in `MakeAlert`, and finishes with the presentation. Its contract ties it to `Present`.
- `scenarios.dfy` works through concrete errors and hierarchies.

Three facts about the source shape the model:

- `willPresent(error:)` is applied at every non-window hop, not once at the end.
- The first window found is used, and there is no fallback key window.
- `willPresent(error:)` is never called on the window's branch.

Since `willPresent(error:)` is the identity on every non-window, `present(error:)` therefore never reaches the application delegate's hook. `PresentNeverConsultsDelegate` proves this, and the alert always carries the caller's original error.

## Model

| member | source | states |
|---|---|---|
| `UIResponder.Present` | Sources/SNUXKit/UIKit/UIResponder.swift:13-51 | an alert is shown exactly when the first window along the `next` chain has a root view controller; it is then shown on that window for the original error |
| `UIResponder.PresentError` | Sources/SNUXKit/UIKit/UIResponder.swift:13-51 | the source's recursion, host loop and action-by-action construction yield exactly `Present`'s outcome, and the `Bool` is whether anything was shown; in the new stack the controller below the alert is the host `FindHost` found, now presenting the alert |
| `UIResponder.FirstWindowAt` | Sources/SNUXKit/UIKit/UIResponder.swift:14-16 | the index of the first window along `next`: every responder before it is not a window, and the chain's length when there is no window |
| `UIResponder.NoWindowPresentsNothing` | Sources/SNUXKit/UIKit/UIResponder.swift:14-15 | a chain without a window ends at a responder with no `next` and returns `false` |
| `UIResponder.PresentStopsAtFirstWindow` | Sources/SNUXKit/UIKit/UIResponder.swift:14-20 | replacing everything past the first window changes nothing: the walk is never delegated past a window |
| `UIResponder.PresentNeverConsultsDelegate` | Sources/SNUXKit/UIKit/UIResponder.swift:14-16 | the outcome does not depend on the application delegate: non-windows pass the error on unchanged and the window never calls the hook |
| `UIResponder.PresentedHandlersUseOriginalError` | Sources/SNUXKit/UIKit/UIResponder.swift:34-40 | every handler of a presented alert recovers from the caller's error with its own action index |
| `UIResponder.Topmost` | Sources/SNUXKit/UIKit/UIResponder.swift:22-24 | the host is on the root's `presentedViewController` chain, is its last element and presents nothing |
| `UIResponder.HostIsUnique` | Sources/SNUXKit/UIKit/UIResponder.swift:22-24 | any controller on the chain that presents nothing is the host |
| `UIResponder.FindHost` | Sources/SNUXKit/UIKit/UIResponder.swift:22-24 | the `while let` loop ends at the topmost controller of the root's chain, which presents nothing |
| `UIResponder.PresentOnTopAppends` | Sources/SNUXKit/UIKit/UIResponder.swift:49 | presenting on the host appends the new controller's stack to the old one, keeps everything below, and the new controller becomes topmost |
| `UIResponder.PresentOnTopPlacesOnHost` | Sources/SNUXKit/UIKit/UIResponder.swift:49 | the new chain is as long as the old one plus the presented controller's chain, and at the old host's position stands the old host, now presenting the new controller |
| `UIResponder.PresentAlertAddsOneAlert` | Sources/SNUXKit/UIKit/UIResponder.swift:49 | presenting the alert adds exactly one entry, the alert, on top of the stack |
| `UIResponder.Message` | Sources/SNUXKit/UIKit/UIResponder.swift:30 | neither reason nor suggestion gives `""`; one alone gives that string; both give reason, `"\n"`, suggestion |
| `UIResponder.RecoveryActions` | Sources/SNUXKit/UIKit/UIResponder.swift:34-40 | action i is titled with option i, has the default style, and its handler recovers with the same error and index i |
| `UIResponder.AlertFor` | Sources/SNUXKit/UIKit/UIResponder.swift:28-47 | the title is the error's description; there are options + 1 actions, option actions in index order, and `Cancel` with no handler is last and the only action without a handler |
| `UIResponder.MakeAlert` | Sources/SNUXKit/UIKit/UIResponder.swift:28-47 | adding one action per enumerated option and then `Cancel` builds exactly `AlertFor`; a missing option list adds no option actions |
| `UIResponder.DelegateWillPresent` | Sources/SNUXKit/UIKit/UIResponder.swift:62-65 | the protocol extension's hook returns the error unchanged; a replacement hook, which line 55 never reaches, returns its own result |
| `UIResponder.WillPresent` | Sources/SNUXKit/UIKit/UIResponder.swift:53-59 | identity on non-windows; on a window, the delegate's result, or the error itself when there is no delegate |
| `UIResponder.WillPresentIsIdentityWithDefaultHook` | Sources/SNUXKit/UIKit/UIResponder.swift:53-65 | with the protocol extension's hook, the one line 55 reaches, `willPresent(error:)` returns its argument on every responder |
| `UIResponder.WillPresentChangesOnlyThroughDelegate` | Sources/SNUXKit/UIKit/UIResponder.swift:53-58 | the hook can change an error only on a window whose delegate carries a replacement hook |
| `Scenarios.RetryIgnoreAlert` | Sources/SNUXKit/UIKit/UIResponder.swift:34-47 | options `Retry`, `Ignore` give exactly three actions: `Retry` (0), `Ignore` (1), `Cancel` |
| `Scenarios.MessageExamples` | Sources/SNUXKit/UIKit/UIResponder.swift:30 | `"disk full"` alone, `"disk full\nfree space and retry"`, and `""` |
| `Scenarios.HostIsDeepestPresented` | Sources/SNUXKit/UIKit/UIResponder.swift:22-24 | root presents A, A presents B: the host is B |
| `Scenarios.LeafBelowWindowPresents` | Sources/SNUXKit/UIKit/UIResponder.swift:13-29 | a leaf three responders below a window with a root controller presents, with the error's own description as title |
| `Scenarios.WindowWithoutRootPresentsNothing` | Sources/SNUXKit/UIKit/UIResponder.swift:18-20 | a window without a root controller returns `false`, whatever lies past it |

## Left out

- Rendering and animation. `UIAlertController` and `present(_:animated:)` belong to UIKit. Presenting is modelled as a value: `PresentOnTop` returns the controller stack after the alert has been placed on the host. Updating controller objects in place, and any aliasing between them, is not captured.
- The effect of `attemptRecovery(fromError:optionIndex:)`. It is owned by the error's producer, so a handler is modelled only as the error and index it passes.
- `NSError` bridging and localisation lookups. The error is a record of its localized description, optional failure reason, optional recovery suggestion and optional list of recovery options.
- The `UIApplication.shared` singleton and its delegate lookup. Both are passed in as an `Application` value that holds an optional delegate and the delegate's optional hook.
- DelegateWillPresent: its `Some(hook)` case stands for a delegate's own `application(_:willPresentError:)`, which the call at line 55 never reaches, because the method is declared only in a protocol extension and is dispatched statically. In the source only the `None` case, the identity, occurs. `PresentNeverConsultsDelegate` shows that `present(error:)` is the same for every hook.
- Overrides of the extension's methods. The model uses the extension's implementation on every responder.
- The `#if canImport(UIKit)` guard, `@discardableResult`, weak references and the alert's fixed `.alert` style. They have no behaviour to verify.
