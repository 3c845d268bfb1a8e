/** The undo queue (hyperplane/utils/undo.py): an insertion-ordered dictionary from
    toasts to the operation each one can undo. The file operations are calls into
    helpers that are not part of this model; they are recorded as effects, and what
    each call raises is given by the caller. */
module Undo {
  import opened Text

  /** A toast, by identity. */
  type Toast = nat

  /** What a call raises; `Ok` when it returns. */
  datatype Fault = Ok | FileNotFound | FileExists | YouAreStupid | GLibError(message: string)

  /** An undoable operation: the files a copy created, the (source, destination)
      pairs of a move, the file and old name of a rename, or the arguments of
      `restore` for each trashed item. */
  datatype Entry =
    | CopyEntry(copies: seq<string>)
    | MoveEntry(moves: seq<(string, string)>)
    | RenameEntry(file: string, oldName: string)
    | TrashEntry(items: seq<seq<string>>)

  datatype Effect =
    | Remove(file: string)
    | Move(source: string, destination: string)
    | SetDisplayName(file: string, name: string)
    | Restore(arguments: seq<string>)
    | Debug(message: string)
    | Dismiss(toast: Toast)

  /** The calls that undo an entry, in order (undo.py:43-68): remove each copy, move
      each destination back to its source, restore the old name, restore each item. */
  function Calls(e: Entry): (calls: seq<Effect>)
    ensures e.CopyEntry? ==> |calls| == |e.copies| && forall i :: 0 <= i < |calls| ==> calls[i] == Remove(e.copies[i])
    ensures e.MoveEntry? ==>
      (|calls| == |e.moves| && forall i :: 0 <= i < |calls| ==> calls[i] == Move(e.moves[i].1, e.moves[i].0))
    ensures e.RenameEntry? ==> calls == [SetDisplayName(e.file, e.oldName)]
    ensures e.TrashEntry? ==> |calls| == |e.items| && forall i :: 0 <= i < |calls| ==> calls[i] == Restore(e.items[i])
  {
    match e
    case CopyEntry(copies) => seq(|copies|, i requires 0 <= i < |copies| => Remove(copies[i]))
    case MoveEntry(moves) => seq(|moves|, i requires 0 <= i < |moves| => Move(moves[i].1, moves[i].0))
    case RenameEntry(file, oldName) => [SetDisplayName(file, oldName)]
    case TrashEntry(items) => seq(|items|, i requires 0 <= i < |items| => Restore(items[i]))
  }

  /** The debug message for a failure the undo of this kind of entry handles, `None`
      for a failure it lets through. Restoring from the trash handles none. */
  function Handled(e: Entry, f: Fault): (m: Option<string>)
    ensures f.Ok? || e.TrashEntry? ==> m.None?
  {
    match e
    case CopyEntry(_) =>
      if f.FileNotFound? then Some("Cannot undo copy: File doesn't exist anymore.") else None
    case MoveEntry(_) =>
      if f.FileExists? then Some("Cannot undo move: File exists.")
      else if f.YouAreStupid? then Some("Cannot undo move: Someone is being stupid.")
      else None
    case RenameEntry(_, _) =>
      if f.GLibError? then Some("Cannot undo rename: " + f.message) else None
    case TrashEntry(_) => None
  }

  /** The effects of making `calls` in order, and the failure that stopped them if one
      was not handled. */
  datatype Run = Run(effects: seq<Effect>, raised: Option<Fault>)

  function RunCalls(calls: seq<Effect>, e: Entry, fault: Effect -> Fault): Run
    decreases |calls|
  {
    if calls == [] then Run([], None)
    else Step(RunCalls(calls[..|calls| - 1], e, fault), calls[|calls| - 1], e, fault)
  }

  /** One call after the run so far: nothing once a failure was raised. */
  function Step(before: Run, call: Effect, e: Entry, fault: Effect -> Fault): Run {
    if before.raised.Some? then before
    else if fault(call).Ok? then Run(before.effects + [call], None)
    else if Handled(e, fault(call)).Some? then Run(before.effects + [call] + [Debug(Handled(e, fault(call)).value)], None)
    else Run(before.effects + [call], Some(fault(call)))
  }

  /** The effects other than debug messages. */
  function Attempts(effects: seq<Effect>): (r: seq<Effect>)
    ensures |r| <= |effects|
  {
    if effects == [] then []
    else Attempts(effects[..|effects| - 1]) + (if effects[|effects| - 1].Debug? then [] else [effects[|effects| - 1]])
  }

  predicate AllHandled(calls: seq<Effect>, e: Entry, fault: Effect -> Fault) {
    forall i :: 0 <= i < |calls| ==> fault(calls[i]).Ok? || Handled(e, fault(calls[i])).Some?
  }

  lemma AttemptsSnoc(effects: seq<Effect>, x: Effect)
    ensures Attempts(effects + [x]) == Attempts(effects) + (if x.Debug? then [] else [x])
  {
    assert (effects + [x])[..|effects|] == effects;
  }

  lemma AllHandledSnoc(init: seq<Effect>, call: Effect, e: Entry, fault: Effect -> Fault)
    ensures AllHandled(init + [call], e, fault) <==>
      (AllHandled(init, e, fault) && (fault(call).Ok? || Handled(e, fault(call)).Some?))
  {
    var calls := init + [call];
    if AllHandled(calls, e, fault) {
      forall i | 0 <= i < |init|
        ensures fault(init[i]).Ok? || Handled(e, fault(init[i])).Some?
      {
        assert calls[i] == init[i];
      }
      assert calls[|init|] == call;
    }
  }

  /** The undo raises exactly when some failure is not handled. */
  lemma {:induction false} RaisedIffUnhandled(calls: seq<Effect>, e: Entry, fault: Effect -> Fault)
    ensures RunCalls(calls, e, fault).raised.None? <==> AllHandled(calls, e, fault)
    decreases |calls|
  {
    if calls != [] {
      var init := calls[..|calls| - 1];
      var call := calls[|calls| - 1];
      assert calls == init + [call];
      RaisedIffUnhandled(init, e, fault);
      AllHandledSnoc(init, call, e, fault);
    }
  }

  /** A handled failure is logged and skipped: when nothing is raised, every call
      was made, in order. */
  lemma {:induction false} EveryCallMade(calls: seq<Effect>, e: Entry, fault: Effect -> Fault)
    requires forall c :: c in calls ==> !c.Debug?
    requires RunCalls(calls, e, fault).raised.None?
    ensures Attempts(RunCalls(calls, e, fault).effects) == calls
    decreases |calls|
  {
    if calls != [] {
      var init := calls[..|calls| - 1];
      var call := calls[|calls| - 1];
      assert calls == init + [call];
      RunSnoc(init, call, e, fault);
      assert forall c :: c in init ==> c in calls;
      EveryCallMade(init, e, fault);
    }
  }

  /** One more call that raises nothing adds itself, and maybe a debug message, to the
      effects. */
  lemma RunSnoc(init: seq<Effect>, call: Effect, e: Entry, fault: Effect -> Fault)
    requires !call.Debug?
    requires RunCalls(init + [call], e, fault).raised.None?
    ensures RunCalls(init, e, fault).raised.None?
    ensures Attempts(RunCalls(init + [call], e, fault).effects) == Attempts(RunCalls(init, e, fault).effects) + [call]
  {
    var calls := init + [call];
    assert calls[..|calls| - 1] == init;
    StepAttempts(RunCalls(init, e, fault), call, e, fault);
  }

  lemma PrefixStep(calls: seq<Effect>, i: int, e: Entry, fault: Effect -> Fault)
    requires 0 <= i < |calls|
    ensures RunCalls(calls[..i + 1], e, fault) == Step(RunCalls(calls[..i], e, fault), calls[i], e, fault)
  {
    assert calls[..i + 1][..i] == calls[..i];
  }

  lemma StepAttempts(before: Run, call: Effect, e: Entry, fault: Effect -> Fault)
    requires !call.Debug? && Step(before, call, e, fault).raised.None?
    ensures before.raised.None?
    ensures Attempts(Step(before, call, e, fault).effects) == Attempts(before.effects) + [call]
  {
    AttemptsSnoc(before.effects, call);
    if !fault(call).Ok? {
      AttemptsSnoc(before.effects + [call], Debug(Handled(e, fault(call)).value));
    }
  }

  /** Restoring from the trash stops at the first failure. */
  lemma TrashStopsAtFailure(items: seq<seq<string>>, fault: Effect -> Fault)
    requires !AllHandled(Calls(TrashEntry(items)), TrashEntry(items), fault)
    ensures RunCalls(Calls(TrashEntry(items)), TrashEntry(items), fault).raised.Some?
  {
    RaisedIffUnhandled(Calls(TrashEntry(items)), TrashEntry(items), fault);
  }

  predicate DistinctKeys(keys: seq<Toast>) {
    forall i, j :: 0 <= i < j < |keys| ==> keys[i] != keys[j]
  }

  /** The key an undo looks up (undo.py:36-41): the toast it was called with, or the
      newest key. */
  function Target(keys: seq<Toast>, toast: Option<Toast>): (t: Toast)
    requires keys != []
    ensures toast.Some? ==> t == toast.value
    ensures toast.None? ==> t == keys[|keys| - 1] && t in keys
  {
    if toast.Some? then toast.value else keys[|keys| - 1]
  }

  /** `popitem`: the keys without the newest. */
  function PopItem(keys: seq<Toast>): (r: seq<Toast>)
    requires keys != []
    ensures |r| == |keys| - 1 && r <= keys
    ensures DistinctKeys(keys) ==> keys[|keys| - 1] !in r
  {
    keys[..|keys| - 1]
  }

  /** An undo from the older of two toasts leaves its entry in the queue and drops
      the newer one, which was never undone. */
  lemma UndoneEntryKept()
    ensures var keys := [1, 2];
      Target(keys, Some(1)) == 1 && PopItem(keys) == [1]
      && 1 in PopItem(keys) && 2 !in PopItem(keys)
  {
  }

  /** The corrected removal drops exactly the undone key and keeps the rest in order;
      for an undo without a toast it is `popitem`. */
  lemma CorrectedRemovesUndone(keys: seq<Toast>, toast: Option<Toast>)
    requires keys != [] && DistinctKeys(keys) && Target(keys, toast) in keys
    ensures var t := Target(keys, toast);
      && t !in Without(keys, t)
      && |Without(keys, t)| == |keys| - 1
      && (forall k :: k in Without(keys, t) <==> k in keys && k != t)
      && (toast.None? ==> Without(keys, t) == PopItem(keys))
  {
    var t := Target(keys, toast);
    WithoutMembers(keys, t);
    DistinctCount(keys, t);
    if toast.None? {
      var init := keys[..|keys| - 1];
      assert keys == init + [t];
      WithoutSnoc(init, t, t);
      WithoutAbsent(init, t);
    }
  }

  /** The calls of one entry made in turn (undo.py:43-68): the effects the calls
      have, a handled failure logged, and the first unhandled failure raised, which
      ends the loop. */
  method MakeCalls(calls: seq<Effect>, e: Entry, fault: Effect -> Fault) returns (made: seq<Effect>, raised: Option<Fault>)
    ensures Run(made, raised) == RunCalls(calls, e, fault)
  {
    var i := 0;
    made, raised := [], None;
    while i < |calls|
      invariant 0 <= i <= |calls|
      invariant Run(made, raised) == RunCalls(calls[..i], e, fault)
      invariant raised.Some? ==> RunCalls(calls, e, fault) == RunCalls(calls[..i], e, fault)
      decreases |calls| - i, if raised.None? then 1 else 0
    {
      var call := calls[i];
      PrefixStep(calls, i, e, fault);
      var f := fault(call);
      made := made + [call];
      if f.Ok? {
      } else if Handled(e, f).Some? {
        made := made + [Debug(Handled(e, f).value)];
      } else {
        raised := Some(f);
        RunStops(calls, i + 1, e, fault);
        i := i + 1;
        break;
      }
      i := i + 1;
    }
    assert calls[..|calls|] == calls;
  }

  /** What one undo did. */
  datatype Outcome = NothingToUndo | MissingKey(toast: Toast) | Raised(fault: Fault) | Undone(key: Toast)

  class Queue {
    var keys: seq<Toast>
    var entries: map<Toast, Entry>
    /** The calls made, the debug messages logged and the toasts dismissed. */
    var effects: seq<Effect>

    ghost predicate Valid()
      reads this
    {
      DistinctKeys(keys) && entries.Keys == set k | k in keys
    }

    constructor ()
      ensures Valid() && keys == [] && entries == map[] && effects == []
    {
      keys := [];
      entries := map[];
      effects := [];
    }

    /** `undo_queue[toast] = entry`: a new key goes last; an existing key keeps its
        place and gets the new entry. */
    method Put(toast: Toast, e: Entry)
      requires Valid()
      modifies this
      ensures Valid() && entries == old(entries)[toast := e] && effects == old(effects)
      ensures keys == if toast in old(keys) then old(keys) else old(keys) + [toast]
    {
      if toast !in keys {
        keys := keys + [toast];
      }
      entries := entries[toast := e];
    }

    /** The dispatch on the entry's kind (undo.py:43-68): each call in turn, a handled
        failure logged, an unhandled one raised. */
    method Perform(e: Entry, fault: Effect -> Fault) returns (raised: Option<Fault>)
      modifies this
      ensures keys == old(keys) && entries == old(entries)
      ensures effects == old(effects) + RunCalls(Calls(e), e, fault).effects
      ensures raised == RunCalls(Calls(e), e, fault).raised
    {
      var made;
      made, raised := MakeCalls(Calls(e), e, fault);
      effects := effects + made;
    }

    /** `undo` as written (undo.py:30-73). An empty queue does nothing; a toast that
        is not a key raises `KeyError`; an unhandled failure stops the undo before the
        toast is dismissed; otherwise the toast is dismissed and `popitem` drops the
        newest key, whichever entry was undone. */
    method Undo(toast: Option<Toast>, fault: Effect -> Fault) returns (outcome: Outcome)
      requires Valid()
      modifies this
      ensures Valid()
      ensures old(keys) == [] ==> outcome == NothingToUndo && effects == old(effects)
      ensures old(keys) != [] ==> Result(old(keys), old(entries), old(effects), effects, toast, fault, outcome)
      ensures outcome.Undone? ==> keys == PopItem(old(keys)) && entries == old(entries) - {old(keys)[|old(keys)| - 1]}
      ensures !outcome.Undone? ==> keys == old(keys) && entries == old(entries)
    {
      outcome := Apply(toast, fault);
      if outcome.Undone? {
        var newest := keys[|keys| - 1];
        var rest := keys[..|keys| - 1];
        assert keys == rest + [newest];
        assert newest !in rest;
        keys := rest;
        entries := entries - {newest};
      }
    }

    /** The undo with the undone key deleted instead of the newest. */
    method UndoCorrected(toast: Option<Toast>, fault: Effect -> Fault) returns (outcome: Outcome)
      requires Valid()
      modifies this
      ensures Valid()
      ensures old(keys) == [] ==> outcome == NothingToUndo && effects == old(effects)
      ensures old(keys) != [] ==> Result(old(keys), old(entries), old(effects), effects, toast, fault, outcome)
      ensures outcome.Undone? ==> keys == Without(old(keys), outcome.key) && entries == old(entries) - {outcome.key}
      ensures !outcome.Undone? ==> keys == old(keys) && entries == old(entries)
    {
      outcome := Apply(toast, fault);
      if outcome.Undone? {
        var key := outcome.key;
        WithoutMembers(keys, key);
        keys := Without(keys, key);
        entries := entries - {key};
        forall i, j | 0 <= i < j < |keys|
          ensures keys[i] != keys[j]
        {
          WithoutDistinct(old(keys), key, i, j);
        }
      }
    }

    /** Everything `undo` does before the removal. */
    method Apply(toast: Option<Toast>, fault: Effect -> Fault) returns (outcome: Outcome)
      requires Valid()
      modifies this
      ensures Valid() && keys == old(keys) && entries == old(entries)
      ensures old(keys) == [] ==> outcome == NothingToUndo && effects == old(effects)
      ensures old(keys) != [] ==> Result(old(keys), old(entries), old(effects), effects, toast, fault, outcome)
      ensures outcome.Undone? ==> outcome.key in keys
    {
      if keys == [] {
        return NothingToUndo;
      }
      var index := Target(keys, toast);
      if index !in entries {
        return MissingKey(index);
      }
      var raised := Perform(entries[index], fault);
      if raised.Some? {
        return Raised(raised.value);
      }
      if toast.Some? {
        effects := effects + [Dismiss(toast.value)];
      }
      outcome := Undone(index);
    }
  }

  /** The outcome and effects of an undo on a non-empty queue. */
  ghost predicate Result(keys: seq<Toast>, entries: map<Toast, Entry>, before: seq<Effect>,
                         after: seq<Effect>, toast: Option<Toast>, fault: Effect -> Fault, outcome: Outcome)
    requires keys != []
  {
    var t := Target(keys, toast);
    if t !in entries then outcome == MissingKey(t) && after == before
    else
      var run := RunCalls(Calls(entries[t]), entries[t], fault);
      if run.raised.Some? then outcome == Raised(run.raised.value) && after == before + run.effects
      else
        && outcome == Undone(t)
        && after == before + run.effects + (if toast.Some? then [Dismiss(toast.value)] else [])
  }

  /** Once a call raises, later calls change nothing. */
  lemma {:induction false} RunStops(calls: seq<Effect>, k: nat, e: Entry, fault: Effect -> Fault)
    requires k <= |calls| && RunCalls(calls[..k], e, fault).raised.Some?
    ensures RunCalls(calls, e, fault) == RunCalls(calls[..k], e, fault)
    decreases |calls| - k
  {
    if k < |calls| {
      assert calls[..k + 1][..k] == calls[..k];
      RunStops(calls, k + 1, e, fault);
    } else {
      assert calls[..k] == calls;
    }
  }

  lemma WithoutDistinct(keys: seq<Toast>, x: Toast, i: int, j: int)
    requires DistinctKeys(keys) && 0 <= i < j < |Without(keys, x)|
    ensures Without(keys, x)[i] != Without(keys, x)[j]
  {
    WithoutCount(keys, x);
    var r := Without(keys, x);
    if r[i] == r[j] {
      assert multiset(r)[r[i]] >= 2 by {
        var front, back := r[..j], r[j..];
        assert r == front + back;
        assert r[i] in multiset(front) by { assert front[i] == r[i]; }
        assert r[i] in multiset(back) by { assert back[0] == r[j]; }
      }
      DistinctCount(keys, r[i]);
    }
  }

  lemma {:induction false} DistinctCount(keys: seq<Toast>, x: Toast)
    requires DistinctKeys(keys)
    ensures multiset(keys)[x] <= 1
    decreases |keys|
  {
    if keys != [] {
      var init := keys[..|keys| - 1];
      assert keys == init + [keys[|keys| - 1]];
      DistinctCount(init, x);
      if keys[|keys| - 1] == x {
        assert x !in init;
      }
    }
  }
}
