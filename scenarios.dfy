/** Concrete hierarchies and errors, worked through the model of `present(error:)`. */
module Scenarios {
  import opened Wrappers
  import opened UIResponder

  function DiskFull(suggestion: Option<string>, options: Option<seq<string>>): PresentableError {
    PresentableError("The operation couldn't be completed.", Some("disk full"), suggestion, options)
  }

  /** Two recovery options give three actions: both options by index, then Cancel. */
  lemma RetryIgnoreAlert()
    ensures var e := DiskFull(None, Some(["Retry", "Ignore"]));
            AlertFor(e).actions == [
              AlertAction("Retry", Default, Some(RecoveryAttempt(e, 0))),
              AlertAction("Ignore", Default, Some(RecoveryAttempt(e, 1))),
              CancelAction]
  {
    var e := DiskFull(None, Some(["Retry", "Ignore"]));
    var actions := AlertFor(e).actions;
    assert |actions| == 3;
    assert RecoveryOptions(e) == ["Retry", "Ignore"];
  }

  /** The message examples: reason alone, reason and suggestion, neither. */
  lemma MessageExamples()
    ensures Message(DiskFull(None, None)) == "disk full"
    ensures Message(DiskFull(Some("free space and retry"), None)) == "disk full\nfree space and retry"
    ensures Message(PresentableError("failed", None, None, None)) == ""
  {
  }

  /** Root presents A, A presents B: the alert is hosted by B. */
  lemma HostIsDeepestPresented()
    ensures var b := ViewController(Screen(2), None);
            var a := ViewController(Screen(1), Some(b));
            Topmost(ViewController(Screen(0), Some(a))) == b
  {
  }

  /** A leaf three responders below a window with a root controller, and no delegate. */
  lemma LeafBelowWindowPresents(e: PresentableError)
    ensures var window := Window(Some(ViewController(Screen(0), None)), None);
            var leaf := Plain(Some(Plain(Some(Plain(Some(window))))));
            var shown := Present(leaf, Application(None), e);
            shown.Some? && shown.value.alert.title == e.localizedDescription
  {
  }

  /** A window without a root controller returns false, whatever the responders below it. */
  lemma WindowWithoutRootPresentsNothing(e: PresentableError, beyond: Option<Responder>)
    ensures !PresentResult(Plain(Some(Window(None, beyond))), Application(None), e)
  {
  }
}
