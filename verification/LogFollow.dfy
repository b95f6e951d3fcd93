/** The log-change notifier: a reset flag, an error slot and a one-slot wake channel shared by a
    watcher callback and one waiter, as interleaved atomic steps. */
module LogFollow {
  import opened Common

  // ----- what the watcher delivers -----

  datatype EventKind = Create | Remove | Rename | OtherModify | OtherKind

  datatype Notification =
    | Event(kind: EventKind, rescan: bool, mentionsTarget: bool)
    | WatchError(message: string)

  predicate ReplacesFile(n: Notification)
    requires n.Event?
  {
    n.kind == Create || n.kind == Remove || n.kind == Rename || n.rescan
  }

  /** The callback acts on errors, rescans and events that mention the target. */
  predicate Relevant(n: Notification) {
    n.WatchError? || n.rescan || n.mentionsTarget
  }

  /** Relevant notifications that make the caller discard its offset. */
  predicate Resets(n: Notification) {
    n.WatchError? || ReplacesFile(n)
  }

  // ----- the shared state and the two threads -----

  /** Where the callback stands before its next atomic step. */
  datatype Callback = Idle | AtStore(n: Notification) | AtError(message: string) | AtSend

  /** Where the waiter stands: outside `wait` or blocked in `recv`, past `recv`, or past the take. */
  datatype Waiter = Outside | AtTake | AtSwap

  /** What is remembered about the run so far; no step reads it. */
  datatype History = History(
    accepted: nat,          // relevant notifications the callback has taken up
    cut: nat,               // `accepted` at the last `recv`
    seen: nat,              // `accepted` at the `recv` of the last finished `wait`
    stores: nat,            // reset stores
    storesAtSwap: nat,      // `stores` at the last swap
    sends: nat,             // `try_send` calls
    receives: nat,          // tokens received
    last: Option<Result<bool, string>>)  // what the last finished `wait` returned

  datatype State = State(
    reset: bool, error: Option<string>, token: bool, callback: Callback, waiter: Waiter, past: History)

  const INITIAL := State(false, None, false, Idle, Outside, History(0, 0, 0, 0, 0, 0, 0, None))

  datatype Action = Deliver(n: Notification) | StoreReset | SetError | TrySend | Receive | TakeError | SwapReset

  predicate Enabled(s: State, a: Action) {
    match a
    case Deliver(_) => s.callback.Idle?
    case StoreReset => s.callback.AtStore?
    case SetError => s.callback.AtError?
    case TrySend => s.callback.AtSend?
    case Receive => s.waiter.Outside? && s.token
    case TakeError => s.waiter.AtTake?
    case SwapReset => s.waiter.AtSwap?
  }

  /** One atomic step of either thread. */
  function Step(s: State, a: Action): State
    requires Enabled(s, a)
  {
    match a
    case Deliver(n) =>
      if !Relevant(n) then s
      else s.(callback := if Resets(n) then AtStore(n) else AtSend,
              past := s.past.(accepted := s.past.accepted + 1))
    case StoreReset =>
      s.(reset := true,
         callback := if s.callback.n.WatchError? then AtError(s.callback.n.message) else AtSend,
         past := s.past.(stores := s.past.stores + 1))
    case SetError =>
      s.(error := Some(s.callback.message), callback := AtSend)
    case TrySend =>
      s.(token := true, callback := Idle, past := s.past.(sends := s.past.sends + 1))
    case Receive =>
      s.(token := false, waiter := AtTake,
         past := s.past.(cut := s.past.accepted, receives := s.past.receives + 1))
    case TakeError =>
      if s.error.Some? then
        s.(error := None, waiter := Outside, past := s.past.(seen := s.past.cut, last := Some(Err(s.error.value))))
      else s.(waiter := AtSwap)
    case SwapReset =>
      s.(reset := false, waiter := Outside,
         past := s.past.(seen := s.past.cut, storesAtSwap := s.past.stores, last := Some(Ok(s.reset))))
  }

  /** The steps of `FileChangeEvents`, each changing the shared fields in place. */
  class FileChangeEvents {
    var reset: bool
    var error: Option<string>
    var token: bool
    var callback: Callback
    var waiter: Waiter
    ghost var past: History

    constructor ()
      ensures View() == INITIAL
    {
      reset, error, token, callback, waiter := false, None, false, Idle, Outside;
      past := INITIAL.past;
    }

    ghost function View(): State
      reads this
    {
      State(reset, error, token, callback, waiter, past)
    }

    /** The callback is handed a notification and branches on it. */
    method OnNotification(n: Notification)
      requires Enabled(View(), Deliver(n))
      modifies this
      ensures View() == Step(old(View()), Deliver(n))
    {
      match n
      case Event(_, rescan, mentions) =>
        if rescan || mentions {
          callback := if ReplacesFile(n) then AtStore(n) else AtSend;
          past := past.(accepted := past.accepted + 1);
        }
      case WatchError(_) =>
        callback := AtStore(n);
        past := past.(accepted := past.accepted + 1);
    }

    method OnStoreReset()
      requires Enabled(View(), StoreReset)
      modifies this
      ensures View() == Step(old(View()), StoreReset)
    {
      reset := true;
      past := past.(stores := past.stores + 1);
      match callback.n {
        case WatchError(message) => callback := AtError(message);
        case Event(_, _, _) => callback := AtSend;
      }
    }

    method OnSetError()
      requires Enabled(View(), SetError)
      modifies this
      ensures View() == Step(old(View()), SetError)
    {
      error := Some(callback.message);
      callback := AtSend;
    }

    /** A full channel drops the token: one is already queued. */
    method OnTrySend()
      requires Enabled(View(), TrySend)
      modifies this
      ensures View() == Step(old(View()), TrySend)
    {
      if !token {
        token := true;
      }
      callback := Idle;
      past := past.(sends := past.sends + 1);
    }

    method WaitReceive()
      requires Enabled(View(), Receive)
      modifies this
      ensures View() == Step(old(View()), Receive)
    {
      token := false;
      waiter := AtTake;
      past := past.(cut := past.accepted, receives := past.receives + 1);
    }

    method WaitTakeError() returns (failed: Option<string>)
      requires Enabled(View(), TakeError)
      modifies this
      ensures View() == Step(old(View()), TakeError)
      ensures failed == old(error)
    {
      failed := error;
      error := None;
      if failed.Some? {
        waiter := Outside;
        past := past.(seen := past.cut, last := Some(Err(failed.value)));
      } else {
        waiter := AtSwap;
      }
    }

    method WaitSwapReset() returns (replaced: bool)
      requires Enabled(View(), SwapReset)
      modifies this
      ensures View() == Step(old(View()), SwapReset)
      ensures replaced == old(reset)
    {
      replaced := reset;
      reset := false;
      waiter := Outside;
      past := past.(seen := past.cut, storesAtSwap := past.stores, last := Some(Ok(replaced)));
    }
  }

  // ----- runs -----

  /** Every interleaving the two threads can produce. */
  ghost predicate IsRun(states: seq<State>, actions: seq<Action>) {
    && |states| == |actions| + 1
    && states[0] == INITIAL
    && forall i :: 0 <= i < |actions| ==> Enabled(states[i], actions[i]) && states[i + 1] == Step(states[i], actions[i])
  }

  predicate LastWaitFailed(s: State) {
    s.past.last.Some? && s.past.last.value.Err?
  }

  /** A wake-up is on its way to the waiter. */
  predicate WakePending(s: State) {
    s.token || s.callback.AtStore? || s.callback.AtError? || s.callback.AtSend?
  }

  predicate NoLostError(s: State) {
    s.error.Some? ==> s.token || s.callback.AtSend? || s.waiter.AtTake?
  }

  predicate NoLostReset(s: State) {
    s.reset ==> s.token || s.callback.AtError? || s.callback.AtSend? || !s.waiter.Outside? || LastWaitFailed(s)
  }

  /** A notification taken up after the last `recv` still has its wake-up ahead of it. */
  predicate NoLostNotification(s: State) {
    s.past.accepted > s.past.cut ==> WakePending(s)
  }

  predicate Consistent(s: State) {
    && s.past.seen <= s.past.cut <= s.past.accepted
    && (s.waiter.Outside? ==> s.past.seen == s.past.cut)
    && s.past.storesAtSwap <= s.past.stores
    && (s.reset <==> s.past.stores > s.past.storesAtSwap)
    && s.past.receives + (if s.token then 1 else 0) <= s.past.sends
    && (s.callback.AtStore? ==> Relevant(s.callback.n) && Resets(s.callback.n))
  }

  predicate Inv(s: State) {
    NoLostError(s) && NoLostReset(s) && NoLostNotification(s) && Consistent(s)
  }

  lemma StepKeepsInv(s: State, a: Action)
    requires Inv(s) && Enabled(s, a)
    ensures Inv(Step(s, a))
  {
  }

  /** Main result: no interleaving loses a wake-up. */
  lemma {:induction false} RunKeepsInv(states: seq<State>, actions: seq<Action>, i: nat)
    requires IsRun(states, actions) && i < |states|
    ensures Inv(states[i])
  {
    if i > 0 {
      RunKeepsInv(states, actions, i - 1);
      StepKeepsInv(states[i - 1], actions[i - 1]);
    }
  }

  /** When both threads rest, a waiter that has not yet seen every relevant notification finds a token,
      and so does one with an error pending; a pending reset without one follows a failed wait. */
  lemma RestingStateWakes(states: seq<State>, actions: seq<Action>, i: nat)
    requires IsRun(states, actions) && i < |states|
    requires states[i].callback.Idle? && states[i].waiter.Outside?
    ensures states[i].past.accepted > states[i].past.seen ==> Enabled(states[i], Receive)
    ensures states[i].error.Some? ==> Enabled(states[i], Receive)
    ensures states[i].reset ==> Enabled(states[i], Receive) || LastWaitFailed(states[i])
  {
    RunKeepsInv(states, actions, i);
  }

  lemma {:induction false} ResetPersists(states: seq<State>, actions: seq<Action>, i: nat, j: nat)
    requires IsRun(states, actions) && i <= j < |states| && states[i].reset
    requires forall k :: i <= k < j ==> actions[k] != SwapReset
    ensures states[j].reset
  {
    if i < j {
      ResetPersists(states, actions, i, j - 1);
    }
  }

  /** Step `k` stored the flag for a replacement, a rescan or an error, and no swap came between it
      and step `i`. */
  ghost predicate StoredSince(states: seq<State>, actions: seq<Action>, k: nat, i: nat)
    requires IsRun(states, actions) && i < |states|
  {
    && k < i && actions[k] == StoreReset
    && states[k].callback.AtStore? && Relevant(states[k].callback.n) && Resets(states[k].callback.n)
    && forall j :: k < j < i ==> actions[j] != SwapReset
  }

  lemma {:induction false} PendingResetWasStored(states: seq<State>, actions: seq<Action>, i: nat) returns (k: nat)
    requires IsRun(states, actions) && i < |states| && states[i].reset
    ensures StoredSince(states, actions, k, i)
  {
    k := i - 1;
    RunKeepsInv(states, actions, k);
    if actions[k] != StoreReset {
      k := PendingResetWasStored(states, actions, i - 1);
    }
  }

  /** Main result: a wait that ends in a swap returns true if and only if a replacement, a rescan or
      an error was signalled since the previous swap. */
  lemma WaitIsTrueExactly(states: seq<State>, actions: seq<Action>, i: nat)
    requires IsRun(states, actions) && i < |actions| && actions[i] == SwapReset
    ensures states[i + 1].past.last == Some(Ok(exists k: nat :: StoredSince(states, actions, k, i)))
  {
    if states[i].reset {
      var k := PendingResetWasStored(states, actions, i);
    }
    if k: nat :| StoredSince(states, actions, k, i) {
      ResetPersists(states, actions, k + 1, i);
    }
  }

  /** Every error message is reported or replaced by a later one: the first take after it fails. */
  lemma {:induction false} ErrorIsReported(states: seq<State>, actions: seq<Action>, i: nat, j: nat)
    requires IsRun(states, actions) && i < j < |actions|
    requires actions[i] == SetError && actions[j] == TakeError
    requires forall k :: i < k < j ==> actions[k] != TakeError
    ensures states[j].error.Some?
    ensures states[j + 1].past.last.Some? && states[j + 1].past.last.value.Err?
    ensures (forall k :: i < k < j ==> actions[k] != SetError) ==>
              states[j + 1].past.last == Some(Err(states[i].callback.message))
  {
    ErrorPersists(states, actions, i, j);
  }

  lemma {:induction false} ErrorPersists(states: seq<State>, actions: seq<Action>, i: nat, j: nat)
    requires IsRun(states, actions) && i < j < |states| && actions[i] == SetError
    requires forall k :: i < k < j ==> actions[k] != TakeError
    ensures states[j].error.Some?
    ensures (forall k :: i < k < j ==> actions[k] != SetError) ==> states[j].error == Some(states[i].callback.message)
  {
    if i + 1 < j {
      ErrorPersists(states, actions, i, j - 1);
    }
  }

  /** A token was sent after the last `recv`. */
  ghost predicate SentSinceReceive(actions: seq<Action>, i: nat)
    requires i <= |actions|
  {
    exists k :: 0 <= k < i && actions[k] == TrySend && forall j :: k < j < i ==> actions[j] != Receive
  }

  /** The channel holds a token exactly when one was sent since the last `recv`. */
  lemma {:induction false} TokenExactly(states: seq<State>, actions: seq<Action>, i: nat)
    requires IsRun(states, actions) && i < |states|
    ensures states[i].token <==> SentSinceReceive(actions, i)
  {
    if i > 0 {
      TokenExactly(states, actions, i - 1);
      if actions[i - 1] == TrySend {
        assert SentSinceReceive(actions, i);
      } else if SentSinceReceive(actions, i - 1) && actions[i - 1] != Receive {
        var k :| 0 <= k < i - 1 && actions[k] == TrySend && forall j :: k < j < i - 1 ==> actions[j] != Receive;
        assert forall j :: k < j < i ==> actions[j] != Receive;
      }
    }
  }

  /** Exactly when a resting state keeps a reset that nothing will wake a waiter for: the flag was stored
      after the last swap, and nothing was sent after the last `recv`. The last wait then failed. */
  lemma StrandedResetExactly(states: seq<State>, actions: seq<Action>, i: nat)
    requires IsRun(states, actions) && i < |states|
    requires states[i].callback.Idle? && states[i].waiter.Outside?
    ensures states[i].reset && !states[i].token
       <==> (exists k: nat :: StoredSince(states, actions, k, i)) && !SentSinceReceive(actions, i)
    ensures states[i].reset && !states[i].token ==> LastWaitFailed(states[i])
  {
    RunKeepsInv(states, actions, i);
    TokenExactly(states, actions, i);
    if states[i].reset {
      var k := PendingResetWasStored(states, actions, i);
    }
    if k: nat :| StoredSince(states, actions, k, i) {
      ResetPersists(states, actions, k + 1, i);
    }
  }

  /** Such states are reached: an error is delivered, and the wait it wakes returns it. */
  lemma ResetOutlivesFailedWait()
    ensures exists states: seq<State>, actions: seq<Action> ::
              && IsRun(states, actions)
              && var s := states[|actions|];
                 s.callback.Idle? && s.waiter.Outside? && s.reset && !s.token && LastWaitFailed(s)
  {
    var actions := [Deliver(WatchError("closed")), StoreReset, SetError, TrySend, Receive, TakeError];
    var s1 := Step(INITIAL, actions[0]);
    var s2 := Step(s1, actions[1]);
    var s3 := Step(s2, actions[2]);
    var s4 := Step(s3, actions[3]);
    var s5 := Step(s4, actions[4]);
    var s6 := Step(s5, actions[5]);
    var states := [INITIAL, s1, s2, s3, s4, s5, s6];
    assert IsRun(states, actions);
    assert states[|actions|] == s6;
  }

  // ----- one notification and the wait it wakes -----

  /** A notification that mentions neither the target nor a rescan, and is no error, changes nothing. */
  lemma IrrelevantIgnored(s: State, kind: EventKind)
    requires s.callback.Idle?
    ensures Step(s, Deliver(Event(kind, false, false))) == s
  {
  }

  /** An error delivered to a resting state ends the wait it wakes with that error. */
  lemma ErrorWakes(s: State, message: string)
    requires s.callback.Idle? && s.waiter.Outside?
    ensures var sent := Step(Step(Step(Step(s, Deliver(WatchError(message))), StoreReset), SetError), TrySend);
            && sent.token && sent.reset
            && Step(Step(sent, Receive), TakeError).past.last == Some(Err(message))
  {
  }

  /** A relevant event ends the wait it wakes with true exactly when the file was created, removed or
      renamed or a rescan is asked for, or a reset was pending already. */
  lemma EventWakes(s: State, kind: EventKind, rescan: bool, mentions: bool)
    requires s.callback.Idle? && s.waiter.Outside? && s.error.None? && (rescan || mentions)
    ensures var changes := rescan || kind.Create? || kind.Remove? || kind.Rename?;
            var taken := Step(s, Deliver(Event(kind, rescan, mentions)));
            && (changes <==> taken.callback.AtStore?) && (!changes <==> taken.callback.AtSend?)
            && var sent := if changes then Step(Step(taken, StoreReset), TrySend) else Step(taken, TrySend);
               && sent.token
               && Step(Step(Step(sent, Receive), TakeError), SwapReset).past.last == Some(Ok(changes || s.reset))
  {
  }
}
