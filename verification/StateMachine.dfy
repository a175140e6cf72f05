// The service status graph and the guard every transition passes.
module StateMachine {
  import opened Common

  datatype Status = Waiting | InProgress | Paused | Completed | Cancelled

  datatype Verdict = Accepted | StateTerminal | StateInvalid | ReasonRequired

  const TERMINAL: set<Status> := {Completed, Cancelled}

  function Allowed(from: Status): set<Status> {
    match from
    case Waiting => {InProgress, Cancelled}
    case InProgress => {Paused, Completed, Cancelled}
    case Paused => {InProgress, Completed, Cancelled}
    case Completed => {}
    case Cancelled => {}
  }

  // The characters `str.strip` removes.
  predicate IsSpace(c: char) {
    var n := c as int;
    || 0x9 <= n <= 0xD || 0x1C <= n <= 0x20 || n == 0x85 || n == 0xA0 || n == 0x1680
    || 0x2000 <= n <= 0x200A || n == 0x2028 || n == 0x2029 || n == 0x202F || n == 0x205F || n == 0x3000
  }

  function Strip(s: string): string {
    if s != [] && IsSpace(s[0]) then Strip(s[1..])
    else if s != [] && IsSpace(s[|s| - 1]) then Strip(s[..|s| - 1])
    else s
  }

  predicate HasText(s: string) {
    exists i | 0 <= i < |s| :: !IsSpace(s[i])
  }

  // Stripping leaves something exactly when there is text.
  lemma {:induction false} StripKeepsText(s: string)
    ensures Strip(s) != "" <==> HasText(s)
  {
    if s != [] && IsSpace(s[0]) {
      StripKeepsText(s[1..]);
      assert forall i | 1 <= i < |s| :: s[i] == s[1..][i - 1];
    } else if s != [] && IsSpace(s[|s| - 1]) {
      StripKeepsText(s[..|s| - 1]);
      assert forall i | 0 <= i < |s| - 1 :: s[i] == s[..|s| - 1][i];
    } else if s != [] {
      assert !IsSpace(s[0]);
    }
  }

  // `(reason or "").strip()`
  function Stripped(reason: Option<string>): string {
    if reason.Some? then Strip(reason.value) else ""
  }

  function Validate(from: Status, to: Status, reason: Option<string>): Verdict {
    if from in TERMINAL then StateTerminal
    else if to !in Allowed(from) then StateInvalid
    else if to == Cancelled && Stripped(reason) == "" then ReasonRequired
    else Accepted
  }

  predicate Blank(s: string) {
    forall i | 0 <= i < |s| :: IsSpace(s[i])
  }

  // `s` is `core` between blanks.
  ghost predicate Wraps(s: string, before: string, core: string, after: string) {
    s == before + core + after && Blank(before) && Blank(after)
  }

  lemma WrapsMore(s: string, before: string, core: string, after: string, c: char)
    requires Wraps(s, before, core, after) && IsSpace(c)
    ensures Wraps([c] + s, [c] + before, core, after)
    ensures Wraps(s + [c], before, core, after + [c])
  {}

  predicate Trimmed(s: string) {
    s != "" ==> !IsSpace(s[0]) && !IsSpace(s[|s| - 1])
  }

  // What `Strip` cuts off is blank, and what it leaves neither starts nor ends with a space.
  lemma {:induction false} StripIsExact(s: string) returns (before: string, after: string)
    ensures Wraps(s, before, Strip(s), after) && Trimmed(Strip(s))
  {
    before, after := "", "";
    if s != [] && IsSpace(s[0]) {
      before, after := StripIsExact(s[1..]);
      WrapsMore(s[1..], before, Strip(s), after, s[0]);
      before := [s[0]] + before;
      assert s == [s[0]] + s[1..];
    } else if s != [] && IsSpace(s[|s| - 1]) {
      before, after := StripIsExact(s[..|s| - 1]);
      WrapsMore(s[..|s| - 1], before, Strip(s), after, s[|s| - 1]);
      after := after + [s[|s| - 1]];
      assert s == s[..|s| - 1] + [s[|s| - 1]];
    }
  }

  predicate Live(s: Status) {
    s != Completed && s != Cancelled
  }

  // The edges in words: a live job may move to any status but waiting and its own, except that a
  // waiting one must be started before it is paused or completed.
  predicate MayMove(from: Status, to: Status) {
    Live(from) && to != Waiting && to != from && (from == Waiting ==> to != Paused && to != Completed)
  }

  lemma EdgesInWords(from: Status, to: Status)
    ensures to in Allowed(from) <==> MayMove(from, to)
  {}

  ghost predicate Reasoned(reason: Option<string>) {
    reason.Some? && HasText(reason.value)
  }

  // Which verdict a transition gets. It is accepted exactly along those edges, a cancellation only
  // with a reason that holds text; a terminal status, a missing edge and a missing reason are
  // refused as such, in this order.
  lemma ValidateAnswers(from: Status, to: Status, reason: Option<string>)
    ensures var verdict := Validate(from, to, reason);
            && (verdict == StateTerminal <==> !Live(from))
            && (verdict == StateInvalid <==> Live(from) && !MayMove(from, to))
            && (verdict == ReasonRequired <==> MayMove(from, to) && to == Cancelled && !Reasoned(reason))
            && (verdict == Accepted <==> MayMove(from, to) && (to == Cancelled ==> Reasoned(reason)))
  {
    if reason.Some? {
      StripKeepsText(reason.value);
    }
  }

  // A cancellation goes through exactly from a live job with a reason that holds text.
  lemma CancelNeedsText(from: Status, reason: Option<string>)
    ensures Validate(from, Cancelled, reason) == Accepted <==> Live(from) && Reasoned(reason)
  {
    ValidateAnswers(from, Cancelled, reason);
  }

  // Terminal means what it says: a status with no way out, and every other has one.
  lemma TerminalExactlyWhenNoWayOut(s: Status)
    ensures s in TERMINAL <==> forall to, reason :: Validate(s, to, reason) != Accepted
  {
    if s !in TERMINAL {
      var to := if s == Waiting then InProgress else Completed;
      assert Validate(s, to, None) == Accepted;
    }
  }
}
