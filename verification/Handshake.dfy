/** Lab 4, zad3b in "kill" mode: the sender sends SIGUSR1 some number of times, each after the reply to the
    one before, then SIGUSR2; the catcher replies to each signal with the same one.  Pending signals are
    sets, since a signal that is already pending is not queued again.

    Handlers never return: each ends in `sigsuspend` or `exit`.  So when a handler interrupts a process
    between `kill` and the counting of the signal, the count is never made up for.  A target handler runs
    with SIGUSR1 blocked up to its `sigsuspend`, except the catcher's first, which sets the mask anew. */
module Handshake {

  datatype Signal = Target | Stop

  /** `Sending` is just before `kill`, `Killed` between `kill` and the increment; `First` is the same
      inside main, where nothing is blocked. */
  datatype SenderPc = Start | First | Waiting | Handling | Sending(sig: Signal) | Killed(sig: Signal) | Done | Failed

  datatype CatcherPc = Listening | Replying | Replied | Stopping | Stopped | Finished

  /** History, not in the program: how often SIGUSR1 was really sent in either direction, whether the
      sender has chosen to stop, and which counts were interrupted. */
  datatype History = History(sent: nat, replies: nat, stop: bool,
                             lateFirst: bool, lateReply: bool, lateLastReply: bool, lateStop: bool)

  datatype State = State(
    sender: SenderPc, sSent: int, sReceived: int,
    catcher: CatcherPc, cSent: int, cReceived: int,
    toCatcher: set<Signal>, toSender: set<Signal>,
    h: History)

  predicate Initial(s: State) {
    && s.sender == Start && s.catcher == Listening && s.toCatcher == {} && s.toSender == {}
    && s.sSent == 0 && s.sReceived == 0 && s.cSent == 0 && s.cReceived == 0
    && s.h.sent == 0 && s.h.replies == 0 && !s.h.stop && NoFlags(s)
  }

  predicate NoFlags(s: State) {
    !s.h.lateFirst && !s.h.lateReply && !s.h.lateLastReply && !s.h.lateStop
  }

  /** One step of the sender or of the catcher. */
  datatype Event = SKill | SCount | STarget | SDecide | SStop | CTarget | CKill | CCount | CStop | CCountStop

  predicate SUnblocked(s: State) {
    s.sender == First || s.sender == Waiting
  }

  predicate CUnblocked(s: State) {
    s.catcher == Listening || (s.catcher == Replied && s.cReceived == 1)
  }

  predicate Enabled(s: State, e: Event) {
    match e
    case SKill => s.sender == Start || s.sender.Sending?
    case SCount => s.sender == First || s.sender.Killed?
    case STarget => SUnblocked(s) && Target in s.toSender
    case SDecide => s.sender == Handling
    case SStop => !s.sender.Done? && !s.sender.Failed? && Stop in s.toSender
    case CTarget => CUnblocked(s) && Target in s.toCatcher
    case CKill => s.catcher == Replying || s.catcher == Stopping
    case CCount => s.catcher == Replied
    case CStop => (s.catcher == Listening || s.catcher == Replying || s.catcher == Replied) && Stop in s.toCatcher
    case CCountStop => s.catcher == Stopped
  }

  function Apply(n: int, s: State, e: Event): State
    requires Enabled(s, e)
  {
    match e
    case SKill =>
      var sig := if s.sender == Start then Target else s.sender.sig;
      s.(sender := if s.sender == Start then First else Killed(sig),
         toCatcher := s.toCatcher + {sig},
         h := if sig == Target then s.h.(sent := s.h.sent + 1) else s.h)
    case SCount => s.(sender := Waiting, sSent := s.sSent + 1)
    case STarget =>
      s.(sender := Handling, sReceived := s.sReceived + 1, toSender := s.toSender - {Target},
         h := s.h.(lateFirst := s.h.lateFirst || s.sender == First))
    case SDecide =>
      if s.sSent < n then s.(sender := Sending(Target))
      else if s.sSent == n then s.(sender := Sending(Stop), sSent := s.sSent - 1, h := s.h.(stop := true))
      else s.(sender := Failed)
    case SStop =>
      s.(sender := Done, toSender := s.toSender - {Stop}, h := s.h.(lateStop := s.sender == Killed(Stop)))
    case CTarget =>
      s.(catcher := Replying, cReceived := s.cReceived + 1, toCatcher := s.toCatcher - {Target},
         h := s.h.(lateReply := s.h.lateReply || s.catcher == Replied))
    case CKill =>
      if s.catcher == Replying then
        s.(catcher := Replied, toSender := s.toSender + {Target}, h := s.h.(replies := s.h.replies + 1))
      else s.(catcher := Stopped, toSender := s.toSender + {Stop})
    case CCount => s.(catcher := Listening, cSent := s.cSent + 1)
    case CStop =>
      s.(catcher := Stopping, cSent := s.cSent - 1, toCatcher := s.toCatcher - {Stop},
         h := s.h.(lateLastReply := s.catcher == Replied))
    case CCountStop => s.(catcher := Finished, cSent := s.cSent + 1)
  }

  predicate Runs(n: int, s: State, events: seq<Event>)
    decreases |events|
  {
    events == [] || (Enabled(s, events[0]) && Runs(n, Apply(n, s, events[0]), events[1..]))
  }

  function Exec(n: int, s: State, events: seq<Event>): State
    requires Runs(n, s, events)
    decreases |events|
  {
    if events == [] then s else Exec(n, Apply(n, s, events[0]), events[1..])
  }

  // ---------------------------------------------------------------- whose turn it is

  /** Where the one message of the handshake is. */
  datatype Turn = Senders | ToCatcher(sig: Signal) | Catchers | ToSender(sig: Signal) | Over

  function WhoseTurn(s: State): Turn {
    if s.sender == Start || s.sender == Handling || s.sender.Sending? then Senders
    else if s.catcher == Replying || s.catcher == Stopping then Catchers
    else if Target in s.toCatcher then ToCatcher(Target)
    else if Stop in s.toCatcher then ToCatcher(Stop)
    else if Target in s.toSender then ToSender(Target)
    else if Stop in s.toSender then ToSender(Stop)
    else Over
  }

  /** There is one message: a process works on it or it is the one pending signal. */
  predicate OneMessage(s: State) {
    var t := WhoseTurn(s);
    && s.toCatcher == (if t.ToCatcher? then {t.sig} else {})
    && s.toSender == (if t.ToSender? then {t.sig} else {})
    && (t.Senders? ==> s.catcher == Listening || s.catcher == Replied)
    && (t.Over? <==> s.sender == Done)
    && (s.sender == Done ==> s.catcher == Stopped || s.catcher == Finished)
  }

  /** Which signal is under way tells the phase. */
  predicate PhaseOk(s: State) {
    var t := WhoseTurn(s);
    && (s.h.stop <==> s.sender == Sending(Stop) || s.sender == Done || t == ToCatcher(Stop) || t == ToSender(Stop)
                      || s.catcher == Stopping)
    && (s.sender == Killed(Stop) ==> s.h.stop) && (s.sender == Killed(Target) || s.sender == First ==> !s.h.stop)
    && (s.catcher == Stopped || s.catcher == Finished <==> t == ToSender(Stop) || s.sender == Done)
    && (s.catcher == Replying ==> !s.h.stop) && (s.sender == Start ==> s.h.sent == 0)
    && (s.sender == First ==> s.h.sent == 1)
  }

  function Bit(b: bool): int {
    if b then 1 else 0
  }

  /** Signals really sent, received and replied to, exactly. */
  predicate RealCounts(s: State) {
    var t := WhoseTurn(s);
    && s.h.sent - s.cReceived == Bit(t == ToCatcher(Target))
    && s.cReceived - s.h.replies == Bit(s.catcher == Replying)
    && s.h.replies - s.sReceived == Bit(t == ToSender(Target))
  }

  predicate SenderCounts(n: int, s: State) {
    && (!s.h.stop ==> s.sSent == s.h.sent - Bit(s.h.lateFirst) - Bit(s.sender == First || s.sender == Killed(Target)))
    && (s.h.stop ==> s.h.sent - Bit(s.h.lateFirst) == n)
    && (s.h.stop ==> s.sSent == n - Bit(s.sender == Sending(Stop) || s.sender == Killed(Stop) || s.h.lateStop))
    && s.h.sent - Bit(s.h.lateFirst) <= n
    && (s.sender == Sending(Target) ==> s.sSent < n && s.sSent == s.h.sent - Bit(s.h.lateFirst))
    && (s.h.lateFirst ==> s.sender != Start && s.sender != First)
    && (s.h.lateStop ==> s.sender == Done)
    && s.sender != Failed
  }

  predicate CatcherCounts(s: State) {
    && s.cSent == s.h.replies - Bit(s.h.lateReply) - Bit(s.h.lateLastReply)
                  - Bit(s.catcher == Replied || s.catcher == Stopping || s.catcher == Stopped)
    && (s.h.lateReply ==> s.cReceived > 1)
    && (s.h.lateLastReply ==> s.catcher == Stopping || s.catcher == Stopped || s.catcher == Finished)
  }

  predicate Inv(n: int, s: State) {
    n >= 1 && OneMessage(s) && PhaseOk(s) && RealCounts(s) && SenderCounts(n, s) && CatcherCounts(s)
  }

  lemma StepKeepsOneMessage(n: int, s: State, e: Event)
    requires Inv(n, s) && Enabled(s, e)
    ensures OneMessage(Apply(n, s, e)) && PhaseOk(Apply(n, s, e))
  {
  }

  lemma StepKeepsRealCounts(n: int, s: State, e: Event)
    requires Inv(n, s) && Enabled(s, e)
    ensures RealCounts(Apply(n, s, e))
  {
    StepKeepsOneMessage(n, s, e);
  }

  lemma StepKeepsSenderCounts(n: int, s: State, e: Event)
    requires Inv(n, s) && Enabled(s, e)
    ensures SenderCounts(n, Apply(n, s, e))
  {
    if s.sender.Killed? {
      assert s.sender.sig == Target || s.sender.sig == Stop;
    }
  }

  lemma StepKeepsCatcherCounts(n: int, s: State, e: Event)
    requires Inv(n, s) && Enabled(s, e)
    ensures CatcherCounts(Apply(n, s, e))
  {
  }

  lemma StepKeepsInv(n: int, s: State, e: Event)
    requires Inv(n, s) && Enabled(s, e)
    ensures Inv(n, Apply(n, s, e))
  {
    StepKeepsOneMessage(n, s, e);
    StepKeepsRealCounts(n, s, e);
    StepKeepsSenderCounts(n, s, e);
    StepKeepsCatcherCounts(n, s, e);
  }

  lemma {:induction false} ExecKeepsInv(n: int, s: State, events: seq<Event>)
    requires Inv(n, s) && Runs(n, s, events)
    ensures Inv(n, Exec(n, s, events))
    decreases |events|
  {
    if events != [] {
      StepKeepsInv(n, s, events[0]);
      ExecKeepsInv(n, Apply(n, s, events[0]), events[1..]);
    }
  }

  // ---------------------------------------------------------------- every run

  lemma EveryRun(n: int, s0: State, events: seq<Event>)
    requires n >= 1 && Initial(s0) && Runs(n, s0, events)
    ensures Inv(n, Exec(n, s0, events))
  {
    InitialFits(n, s0);
    ExecKeepsInv(n, s0, events);
  }

  /** No signal is ever sent while another one is pending, so none is lost in a set; and the sender is
      never more than one signal ahead of the replies. */
  lemma NeverCoalesces(n: int, s0: State, events: seq<Event>)
    requires n >= 1 && Initial(s0) && Runs(n, s0, events)
    ensures var s := Exec(n, s0, events);
            && |s.toCatcher| + |s.toSender| <= 1
            && (Enabled(s, SKill) || Enabled(s, CKill) ==> s.toCatcher == {} && s.toSender == {})
            && 0 <= s.h.sent - s.sReceived <= 1
            && s.sender != Failed
  {
    EveryRun(n, s0, events);
  }

  predicate Ended(s: State) {
    s.sender == Done && s.catcher == Finished
  }

  predicate SameFlags(s: State, t: State) {
    && t.h.lateFirst == s.h.lateFirst && t.h.lateReply == s.h.lateReply
    && t.h.lateLastReply == s.h.lateLastReply && t.h.lateStop == s.h.lateStop
  }

  /** Until both have ended, one of them can go on, even with counting before anything else. */
  lemma NoDeadlock(n: int, s: State) returns (e: Event)
    requires Inv(n, s) && !Ended(s)
    ensures Enabled(s, e)
    ensures SameFlags(s, Apply(n, s, e))
    ensures e == SDecide ==> s.catcher == Listening
  {
    var t := WhoseTurn(s);
    if s.catcher == Stopped {
      e := CCountStop;
    } else if s.sender == First || s.sender.Killed? {
      e := SCount;
    } else if s.catcher == Replied {
      e := CCount;
    } else {
      match t
      case Senders => e := if s.sender == Handling then SDecide else SKill;
      case ToCatcher(sig) => e := if sig == Target then CTarget else CStop;
      case Catchers => e := CKill;
      case ToSender(sig) => e := if sig == Target then STarget else SStop;
      case Over =>
    }
  }

  /** The work left, at most. */
  function Left(n: int, s: State): int {
    var t := WhoseTurn(s);
    20 * (n + 1 - s.h.sent)
    + Bit(s.sender == First || s.sender.Killed?) + Bit(s.catcher == Replied || s.catcher == Stopped)
    + match t
      case ToCatcher(sig) => if sig == Target then 18 else 8
      case Catchers => if s.catcher == Replying then 17 else 7
      case ToSender(sig) => if sig == Target then 15 else 5
      case Senders => if s.sender == Handling then 14 else if s.sender == Sending(Stop) then 10 else 13
      case Over => 0
  }

  lemma StepsShrinkWork(n: int, s: State, e: Event)
    requires Inv(n, s) && Enabled(s, e)
    ensures 0 <= Left(n, Apply(n, s, e)) < Left(n, s)
  {
    StepKeepsOneMessage(n, s, e);
    StepKeepsSenderCounts(n, s, e);
    if s.sender.Killed? {
      assert s.sender.sig == Target || s.sender.sig == Stop;
    }
  }

  lemma {:induction false} RunsAreFinite(n: int, s: State, events: seq<Event>)
    requires Inv(n, s) && Runs(n, s, events)
    ensures |events| <= Left(n, s)
    decreases |events|
  {
    if events != [] {
      StepsShrinkWork(n, s, events[0]);
      StepKeepsInv(n, s, events[0]);
      RunsAreFinite(n, Apply(n, s, events[0]), events[1..]);
    }
  }

  lemma InitialFits(n: int, s: State)
    requires n >= 1 && Initial(s)
    ensures Inv(n, s) && Left(n, s) == 20 * n + 33
  {
    assert WhoseTurn(s) == Senders;
  }

  /** Every run is finite, and one that cannot go on has brought both to their end. */
  lemma AlwaysEnds(n: int, s0: State, events: seq<Event>)
    requires n >= 1 && Initial(s0) && Runs(n, s0, events)
    ensures |events| <= 20 * n + 33
    ensures Stuck(Exec(n, s0, events)) ==> Ended(Exec(n, s0, events))
  {
    InitialFits(n, s0);
    EndsFrom(n, s0, events);
  }

  lemma EndsFrom(n: int, s: State, events: seq<Event>)
    requires Inv(n, s) && Runs(n, s, events)
    ensures |events| <= Left(n, s) && (Stuck(Exec(n, s, events)) ==> Ended(Exec(n, s, events)))
  {
    RunsAreFinite(n, s, events);
    ExecKeepsInv(n, s, events);
    StuckMeansEnded(n, Exec(n, s, events));
  }

  predicate Stuck(s: State) {
    forall e: Event :: !Enabled(s, e)
  }

  lemma StuckMeansEnded(n: int, s: State)
    requires Inv(n, s)
    ensures Stuck(s) ==> Ended(s)
  {
    if !Ended(s) {
      var e := NoDeadlock(n, s);
    }
  }

  /** What the two print in the end.  Everything received is what was really sent; the first reply taken
      too early makes the sender send one more than asked, and each count interrupted is one short. */
  lemma FinalCounts(n: int, s0: State, events: seq<Event>)
    requires n >= 1 && Initial(s0) && Runs(n, s0, events) && Ended(Exec(n, s0, events))
    ensures var s := Exec(n, s0, events);
            && s.cReceived == s.sReceived == s.h.sent == n + Bit(s.h.lateFirst)
            && s.sSent == n - Bit(s.h.lateStop)
            && s.cSent == n + Bit(s.h.lateFirst) - Bit(s.h.lateReply) - Bit(s.h.lateLastReply)
  {
    EveryRun(n, s0, events);
  }

  /** Both report the number asked for, sent and received, exactly when no count was interrupted. */
  lemma CountsAgree(n: int, s0: State, events: seq<Event>)
    requires n >= 1 && Initial(s0) && Runs(n, s0, events) && Ended(Exec(n, s0, events))
    ensures var s := Exec(n, s0, events);
            s.sSent == s.sReceived == s.cSent == s.cReceived == n <==>
            !s.h.lateFirst && !s.h.lateReply && !s.h.lateLastReply && !s.h.lateStop
  {
    FinalCounts(n, s0, events);
  }

  // ---------------------------------------------------------------- the interrupted counts happen

  lemma Prepend(n: int, s: State, e: Event, rest: seq<Event>)
    requires Enabled(s, e) && Runs(n, Apply(n, s, e), rest)
    ensures Runs(n, s, [e] + rest) && Exec(n, s, [e] + rest) == Exec(n, Apply(n, s, e), rest)
  {
    assert ([e] + rest)[1..] == rest;
  }

  /** Any state that fits can be run to the end without interrupting a count. */
  lemma {:induction false} Finish(n: int, s: State) returns (events: seq<Event>)
    requires Inv(n, s)
    ensures Runs(n, s, events) && Ended(Exec(n, s, events))
    ensures SameFlags(s, Exec(n, s, events))
    decreases Left(n, s)
  {
    if Ended(s) {
      events := [];
    } else {
      var e := NoDeadlock(n, s);
      var next := Apply(n, s, e);
      StepsShrinkWork(n, s, e);
      StepKeepsInv(n, s, e);
      var rest := Finish(n, next);
      Prepend(n, s, e, rest);
      events := [e] + rest;
    }
  }

  lemma Before(n: int, s: State, e: Event, rest: seq<Event>) returns (events: seq<Event>)
    requires Enabled(s, e) && Runs(n, Apply(n, s, e), rest) && Ended(Exec(n, Apply(n, s, e), rest))
    ensures Runs(n, s, events) && Exec(n, s, events) == Exec(n, Apply(n, s, e), rest)
  {
    Prepend(n, s, e, rest);
    events := [e] + rest;
  }

  /** The beginning of every run, up to the first reply, with neither signal counted. */
  lemma FirstReply(n: int, s0: State) returns (s1: State, s2: State, s3: State)
    requires n >= 1 && Initial(s0)
    ensures Enabled(s0, SKill) && s1 == Apply(n, s0, SKill)
    ensures Enabled(s1, CTarget) && s2 == Apply(n, s1, CTarget)
    ensures Enabled(s2, CKill) && s3 == Apply(n, s2, CKill)
    ensures Inv(n, s3) && NoFlags(s3) && s3.toSender == {Target} && s3.toCatcher == {}
    ensures s3.sender == First && s3.catcher == Replied && s3.cReceived == 1 && s3.sSent == 0
  {
    InitialFits(n, s0);
    s1 := Apply(n, s0, SKill);
    StepKeepsInv(n, s0, SKill);
    s2 := Apply(n, s1, CTarget);
    StepKeepsInv(n, s1, CTarget);
    s3 := Apply(n, s2, CKill);
    StepKeepsInv(n, s2, CKill);
  }

  lemma ThreeBefore(n: int, s0: State, s1: State, s2: State, s3: State, rest: seq<Event>) returns (events: seq<Event>)
    requires Enabled(s0, SKill) && s1 == Apply(n, s0, SKill)
    requires Enabled(s1, CTarget) && s2 == Apply(n, s1, CTarget)
    requires Enabled(s2, CKill) && s3 == Apply(n, s2, CKill)
    requires Runs(n, s3, rest) && Ended(Exec(n, s3, rest))
    ensures Runs(n, s0, events) && Exec(n, s0, events) == Exec(n, s3, rest)
  {
    events := Before(n, s2, CKill, rest);
    events := Before(n, s1, CTarget, events);
    events := Before(n, s0, SKill, events);
  }

  /** For every count there is a run that counts everything. */
  lemma NothingLate(n: int, s0: State) returns (events: seq<Event>)
    requires n >= 1 && Initial(s0)
    ensures Runs(n, s0, events) && Ended(Exec(n, s0, events))
    ensures var s := Exec(n, s0, events); s.sSent == s.sReceived == s.cSent == s.cReceived == n
  {
    InitialFits(n, s0);
    events := Finish(n, s0);
    CountsAgree(n, s0, events);
  }

  /** For every count: when the first reply is handled before main has counted the first signal, one
      signal too many is sent, and the sender does not know. */
  lemma OneTooMany(n: int, s0: State) returns (events: seq<Event>)
    requires n >= 1 && Initial(s0)
    ensures Runs(n, s0, events) && Ended(Exec(n, s0, events))
    ensures var s := Exec(n, s0, events); s.cReceived == s.sReceived == s.cSent == n + 1 && s.sSent == n
  {
    var s1, s2, s3 := FirstReply(n, s0);
    var s := Apply(n, s3, STarget);
    StepKeepsInv(n, s3, STarget);
    var rest := Finish(n, s);
    rest := Before(n, s3, STarget, rest);
    events := ThreeBefore(n, s0, s1, s2, s3, rest);
    FinalCounts(n, s0, events);
  }

  /** For every count: when the catcher's first reply brings the next signal before it is counted, the
      catcher reports one reply too few. */
  lemma OneTooFew(n: int, s0: State) returns (events: seq<Event>)
    requires n >= 1 && Initial(s0)
    ensures Runs(n, s0, events) && Ended(Exec(n, s0, events))
    ensures var s := Exec(n, s0, events); s.sSent == s.sReceived == s.cReceived == n && s.cSent == n - 1
  {
    var s1, s2, s3 := FirstReply(n, s0);
    var last := if n == 1 then CStop else CTarget;
    var s7, s8 := SecondSignal(n, s3, last);
    var rest := Finish(n, s8);
    rest := Before(n, s7, last, rest);
    rest := UpToSecondSignal(n, s3, s7, rest);
    events := ThreeBefore(n, s0, s1, s2, s3, rest);
    FinalCounts(n, s0, events);
  }

  /** After the first reply, the sender counts, takes it and sends the next signal. */
  ghost predicate SecondSent(n: int, s3: State, s7: State) {
    && Enabled(s3, SCount)
    && Enabled(Apply(n, s3, SCount), STarget)
    && Enabled(Apply(n, Apply(n, s3, SCount), STarget), SDecide)
    && Enabled(Apply(n, Apply(n, Apply(n, s3, SCount), STarget), SDecide), SKill)
    && s7 == Apply(n, Apply(n, Apply(n, Apply(n, s3, SCount), STarget), SDecide), SKill)
  }

  lemma UpToSecondSignal(n: int, s3: State, s7: State, rest: seq<Event>) returns (events: seq<Event>)
    requires SecondSent(n, s3, s7) && Runs(n, s7, rest) && Ended(Exec(n, s7, rest))
    ensures Runs(n, s3, events) && Exec(n, s3, events) == Exec(n, s7, rest)
  {
    var s4 := Apply(n, s3, SCount);
    var s5 := Apply(n, s4, STarget);
    var s6 := Apply(n, s5, SDecide);
    events := Before(n, s6, SKill, rest);
    events := Before(n, s5, SDecide, events);
    events := Before(n, s4, STarget, events);
    events := Before(n, s3, SCount, events);
  }

  lemma SecondSignal(n: int, s3: State, last: Event) returns (s7: State, s8: State)
    requires Inv(n, s3) && NoFlags(s3) && s3.toSender == {Target} && s3.toCatcher == {}
    requires s3.sender == First && s3.catcher == Replied && s3.cReceived == 1 && s3.sSent == 0
    requires last == if n == 1 then CStop else CTarget
    ensures SecondSent(n, s3, s7) && Enabled(s7, last) && s8 == Apply(n, s7, last) && Inv(n, s8)
    ensures !s8.h.lateFirst && !s8.h.lateStop && s8.h.lateReply == (n > 1) && s8.h.lateLastReply == (n == 1)
  {
    var s4 := Apply(n, s3, SCount);
    StepKeepsInv(n, s3, SCount);
    var s5 := Apply(n, s4, STarget);
    StepKeepsInv(n, s4, STarget);
    var s6 := Apply(n, s5, SDecide);
    StepKeepsInv(n, s5, SDecide);
    assert s6.sender == Sending(if n == 1 then Stop else Target);
    s7 := Apply(n, s6, SKill);
    StepKeepsInv(n, s6, SKill);
    s8 := Apply(n, s7, last);
    StepKeepsInv(n, s7, last);
  }

  /** For every count: when the answer to SIGUSR2 arrives before SIGUSR2 is counted, which takes back that
      it is not to be counted, the sender reports one signal too few. */
  lemma StopUncounted(n: int, s0: State) returns (events: seq<Event>)
    requires n >= 1 && Initial(s0)
    ensures Runs(n, s0, events) && Ended(Exec(n, s0, events))
    ensures var s := Exec(n, s0, events); s.sReceived == s.cSent == s.cReceived == n && s.sSent == n - 1
  {
    InitialFits(n, s0);
    events := InterruptStop(n, s0);
    FinalCounts(n, s0, events);
  }

  lemma {:induction false} InterruptStop(n: int, s: State) returns (events: seq<Event>)
    requires Inv(n, s) && !s.h.stop
    ensures Runs(n, s, events) && Ended(Exec(n, s, events))
    ensures var t := Exec(n, s, events);
            && t.h.lateFirst == s.h.lateFirst && t.h.lateReply == s.h.lateReply
            && t.h.lateLastReply == s.h.lateLastReply && t.h.lateStop
    decreases Left(n, s)
  {
    var e := NoDeadlock(n, s);
    var next := Apply(n, s, e);
    if e == SDecide && s.sSent == n {
      events := LastSteps(n, s);
    } else {
      StepsShrinkWork(n, s, e);
      StepKeepsInv(n, s, e);
      var rest := InterruptStop(n, next);
      events := Before(n, s, e, rest);
    }
  }

  lemma LastSteps(n: int, s: State) returns (events: seq<Event>)
    requires Inv(n, s) && s.sender == Handling && s.sSent == n && s.catcher == Listening
    ensures Runs(n, s, events) && Ended(Exec(n, s, events))
    ensures var t := Exec(n, s, events);
            && t.h.lateFirst == s.h.lateFirst && t.h.lateReply == s.h.lateReply
            && t.h.lateLastReply == s.h.lateLastReply && t.h.lateStop
  {
    var s1 := Apply(n, s, SDecide);
    var s2 := Apply(n, s1, SKill);
    var s3 := Apply(n, s2, CStop);
    var s4 := Apply(n, s3, CKill);
    var s5 := Apply(n, s4, SStop);
    var s6 := Apply(n, s5, CCountStop);
    assert Runs(n, s6, []) && Exec(n, s6, []) == s6;
    events := Before(n, s5, CCountStop, []);
    events := Before(n, s4, SStop, events);
    events := Before(n, s3, CKill, events);
    events := Before(n, s2, CStop, events);
    events := Before(n, s1, SKill, events);
    events := Before(n, s, SDecide, events);
  }
}
