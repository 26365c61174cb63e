/** The local host adapter: a terminal runtime whose effects are replayed on a fallible host.

    The terminal runtime itself is a parameter: a state with a feed, a finish and a
    resize function.  Whether a host call succeeds, and what the clipboard holds, is
    left open. */
module LocalRuntime {
  import opened ByteStrings
  import opened Results

  datatype Change =
    | ApplicationCursorKeys(enabled: bool) | ApplicationKeypad(enabled: bool) | BracketedPaste(enabled: bool)
    | Mouse(mode: int) | Focus(enabled: bool) | KittyKeyboardFlags(flags: int) | ModifyOtherKeys(mode: int)
    | Win32InputMode(enabled: bool) | SynchronizedOutput(enabled: bool)

  datatype Effect =
    | ConsoleWrite(bytes: Bytes)
    | TransportWrite(bytes: Bytes)
    | ClipboardWrite(contents: Bytes)
    | ClipboardRead(selection: Bytes)
    | ModeChange(change: Change)
    | Silent

  datatype Policy = Off | WriteOnly | ReadWrite

  predicate AllowsWrite(p: Policy) {
    p.WriteOnly? || p.ReadWrite?
  }

  predicate AllowsQuery(p: Policy) {
    p.ReadWrite?
  }

  // ----- what reaches the host

  /** The effects that the policy lets through to the host. */
  predicate Passes(p: Policy, e: Effect) {
    match e
    case ConsoleWrite(_) => true
    case TransportWrite(_) => true
    case ClipboardWrite(_) => AllowsWrite(p)
    case ClipboardRead(_) => AllowsQuery(p)
    case ModeChange(_) => false
    case Silent => false
  }

  function Filtered(p: Policy, effects: seq<Effect>): seq<Effect> {
    if effects == [] then []
    else Filtered(p, effects[..|effects| - 1]) + if Passes(p, effects[|effects| - 1]) then [effects[|effects| - 1]] else []
  }

  /** `mode_changes` of a delta. */
  function Changes(effects: seq<Effect>): seq<Change> {
    if effects == [] then []
    else
      var e := effects[|effects| - 1];
      Changes(effects[..|effects| - 1]) + if e.ModeChange? then [e.change] else []
  }

  lemma {:induction false} FilteredConcat(p: Policy, a: seq<Effect>, b: seq<Effect>)
    ensures Filtered(p, a + b) == Filtered(p, a) + Filtered(p, b)
  {
    hide Passes;
    if b == [] {
      assert a + b == a;
    } else {
      assert (a + b)[..|a + b| - 1] == a + b[..|b| - 1];
      FilteredConcat(p, a, b[..|b| - 1]);
    }
  }

  lemma FilteredStep(p: Policy, effects: seq<Effect>, n: nat)
    requires n < |effects|
    ensures Filtered(p, effects[..n + 1]) == Filtered(p, effects[..n]) + if Passes(p, effects[n]) then [effects[n]] else []
    ensures Changes(effects[..n + 1]) == Changes(effects[..n]) + if effects[n].ModeChange? then [effects[n].change] else []
  {
    assert effects[..n + 1][..n] == effects[..n];
  }

  lemma FilteredPrefix(p: Policy, effects: seq<Effect>, n: nat)
    requires n <= |effects|
    ensures Filtered(p, effects[..n]) <= Filtered(p, effects)
    ensures n < |effects| && Passes(p, effects[n]) ==>
      |Filtered(p, effects[..n])| < |Filtered(p, effects)| && Filtered(p, effects)[|Filtered(p, effects[..n])|] == effects[n]
  {
    hide Passes;
    assert effects == effects[..n] + effects[n..];
    FilteredConcat(p, effects[..n], effects[n..]);
    if n < |effects| && Passes(p, effects[n]) {
      assert effects == effects[..n + 1] + effects[n + 1..];
      FilteredConcat(p, effects[..n + 1], effects[n + 1..]);
      FilteredStep(p, effects, n);
    }
  }

  // ----- the host

  /** A host call that succeeded. */
  datatype Event =
    | Wrote(bytes: Bytes)
    | Responded(bytes: Bytes)
    | Copied(contents: Bytes)
    | Answered(selection: Bytes, text: Option<Bytes>)

  /** The effect an event carries out. */
  function Cause(e: Event): Effect {
    match e
    case Wrote(b) => ConsoleWrite(b)
    case Responded(b) => TransportWrite(b)
    case Copied(c) => ClipboardWrite(c)
    case Answered(s, _) => ClipboardRead(s)
  }

  function Causes(events: seq<Event>): (effects: seq<Effect>)
    ensures |effects| == |events|
    ensures forall i :: 0 <= i < |events| ==> effects[i] == Cause(events[i])
  {
    seq(|events|, i requires 0 <= i < |events| => Cause(events[i]))
  }

  class Host {
    var events: seq<Event>
    var reported: seq<Change>

    constructor ()
      ensures events == [] && reported == []
    {
      events, reported := [], [];
    }

    /** One fallible or infallible call; a failed call commits nothing. */
    method Perform(e: Effect) returns (ok: bool)
      requires e.ConsoleWrite? || e.TransportWrite? || e.ClipboardWrite? || e.ClipboardRead?
      modifies this`events
      ensures ok ==> |events| == |old(events)| + 1 && events[..|old(events)|] == old(events) && Cause(events[|old(events)|]) == e
      ensures !ok ==> events == old(events) && !e.ClipboardWrite?
    {
      ok := true;
      match e
      case ConsoleWrite(b) =>
        if * { events := events + [Wrote(b)]; } else { ok := false; }
      case TransportWrite(b) =>
        if * { events := events + [Responded(b)]; } else { ok := false; }
      case ClipboardWrite(c) =>
        events := events + [Copied(c)];
      case ClipboardRead(s) =>
        var text: Option<Bytes> := *;
        if text.None? {
          events := events + [Answered(s, None)];
        } else if * {
          events := events + [Answered(s, text)];
        } else {
          ok := false;
        }
    }

    /** `apply_local_runtime_delta`: the effects that pass, in order, up to the first failure;
        the mode changes only when nothing failed and the caller wants them. */
    method Apply(policy: Policy, effects: seq<Effect>, wantsChanges: bool) returns (ok: bool, ghost done: nat)
      modifies this
      ensures done <= |Filtered(policy, effects)| && (ok <==> done == |Filtered(policy, effects)|)
      ensures Causes(events) == Causes(old(events)) + Filtered(policy, effects)[..done]
      ensures old(events) <= events
      ensures !ok ==> !Filtered(policy, effects)[done].ClipboardWrite?
      ensures reported == old(reported) + if ok && wantsChanges then Changes(effects) else []
    {
      hide Passes, Filtered, Changes;
      EmptyRun(policy, effects);
      for n := 0 to |effects|
        invariant reported == old(reported)
        invariant old(events) <= events
        invariant Causes(events) == Causes(old(events)) + Filtered(policy, effects[..n])
      {
        FilteredStep(policy, effects, n);
        PassesMeaning(policy, effects[n]);
        if Passes(policy, effects[n]) {
          ghost var before := events;
          var good := Perform(effects[n]);
          if !good {
            FilteredPrefix(policy, effects, n);
            return false, |Filtered(policy, effects[..n])|;
          }
          CausesStep(before, events);
        }
      }
      assert effects[..|effects|] == effects;
      if wantsChanges {
        ReportAll(Changes(effects));
      }
      return true, |Filtered(policy, effects)|;
    }

    method ReportAll(changes: seq<Change>)
      modifies this`reported
      ensures reported == old(reported) + changes
    {
      for n := 0 to |changes|
        invariant reported == old(reported) + changes[..n]
      {
        reported := reported + [changes[n]];
      }
    }
  }

  lemma EmptyRun(policy: Policy, effects: seq<Effect>)
    ensures Filtered(policy, effects[..0]) == []
  {}

  lemma PassesMeaning(p: Policy, e: Effect)
    ensures Passes(p, e) ==> e.ConsoleWrite? || e.TransportWrite? || e.ClipboardWrite? || e.ClipboardRead?
  {}

  lemma CausesStep(before: seq<Event>, after: seq<Event>)
    requires |after| == |before| + 1 && after[..|before|] == before
    ensures Causes(after) == Causes(before) + [Cause(after[|before|])]
  {
    assert forall i :: 0 <= i < |before| ==> after[i] == after[..|before|][i] == before[i];
  }

  // ----- the adapter

  datatype Size = Size(columns: nat, rows: nat)

  /** The terminal runtime as the adapter sees it. */
  datatype Machine<!R> = Machine(feed: (R, Bytes) -> (R, seq<Effect>), finish: R -> (R, seq<Effect>), resize: (R, Size) -> R)

  /** What one call fed to the host, whether it was a write, and whether the host took it all. */
  datatype Batch = Batch(effects: seq<Effect>, write: bool, ok: bool)

  ghost function Fed(batches: seq<Batch>): seq<Effect> {
    if batches == [] then [] else Fed(batches[..|batches| - 1]) + batches[|batches| - 1].effects
  }

  /** The mode changes of the writes that succeeded. */
  ghost function Reported(batches: seq<Batch>): seq<Change> {
    if batches == [] then []
    else
      var b := batches[|batches| - 1];
      Reported(batches[..|batches| - 1]) + if b.write && b.ok then Changes(b.effects) else []
  }

  ghost predicate OnlyLastFails(batches: seq<Batch>) {
    forall i :: 0 <= i < |batches| - 1 ==> batches[i].ok
  }

  /** What every reachable state satisfies: the committed events carry out, in order, a prefix of
      the policy-filtered effects of all batches, and a proper one exactly after a failure. */
  ghost predicate Faithful(policy: Policy, batches: seq<Batch>, events: seq<Event>, failed: bool) {
    && OnlyLastFails(batches)
    && Causes(events) <= Filtered(policy, Fed(batches))
    && (failed <==> |events| < |Filtered(policy, Fed(batches))|)
    && (failed <==> batches != [] && !batches[|batches| - 1].ok)
  }

  lemma NothingFed(policy: Policy)
    ensures Faithful(policy, [], [], false) && Reported([]) == []
  {}

  lemma FedSnoc(batches: seq<Batch>, b: Batch)
    ensures Fed(batches + [b]) == Fed(batches) + b.effects
    ensures Reported(batches + [b]) == Reported(batches) + if b.write && b.ok then Changes(b.effects) else []
  {
    assert (batches + [b])[..|batches|] == batches;
  }

  lemma FaithfulStep(policy: Policy, batches: seq<Batch>, events: seq<Event>, b: Batch, after: seq<Event>, done: nat)
    requires Faithful(policy, batches, events, false)
    requires done <= |Filtered(policy, b.effects)| && (b.ok <==> done == |Filtered(policy, b.effects)|)
    requires Causes(after) == Causes(events) + Filtered(policy, b.effects)[..done]
    ensures Faithful(policy, batches + [b], after, !b.ok)
  {
    hide Filtered, Fed;
    var longer := batches + [b];
    assert forall i :: 0 <= i < |longer| - 1 ==> longer[i] == batches[i];
    FedSnoc(batches, b);
    FilteredConcat(policy, Fed(batches), b.effects);
    assert Causes(events) == Filtered(policy, Fed(batches));
  }

  class Adapter<R(!new)> {
    const machine: Machine<R>
    const policy: Policy
    const host: Host
    var runtime: R
    var appliedSize: Size
    var hostFailed: bool
    ghost var batches: seq<Batch>

    ghost predicate Valid()
      reads this, host
    {
      Faithful(policy, batches, host.events, hostFailed) && host.reported == Reported(batches)
    }

    constructor (machine: Machine<R>, policy: Policy, runtime: R, size: Size)
      ensures Valid() && fresh(host) && !hostFailed && batches == []
      ensures this.machine == machine && this.policy == policy && this.runtime == runtime && appliedSize == size
    {
      this.machine, this.policy, this.runtime := machine, policy, runtime;
      appliedSize, hostFailed, batches := size, false, [];
      host := new Host();
      new;
      NothingFed(policy);
    }

    /** `write_with_clipboard`, with the size that the terminal has at the time. */
    method Write(bytes: Bytes, size: Size) returns (ok: bool)
      requires Valid()
      modifies this, host
      ensures Valid() && old(host.events) <= host.events
      ensures old(hostFailed) ==> !ok && unchanged(this) && unchanged(host)
      ensures !old(hostFailed) ==>
        var synced := if size == old(appliedSize) then old(runtime) else machine.resize(old(runtime), size);
        && runtime == machine.feed(synced, bytes).0 && appliedSize == size
        && batches == old(batches) + [Batch(machine.feed(synced, bytes).1, true, ok)]
        && hostFailed == !ok
    {
      hide Faithful, Filtered, Reported, Fed, Causes, Changes;
      if hostFailed {
        return false;
      }
      if size != appliedSize {
        runtime := machine.resize(runtime, size);
        appliedSize := size;
      }
      var delta := machine.feed(runtime, bytes);
      runtime := delta.0;
      ok := Settle(delta.1, true);
    }

    /** `finish`: the trailing effects, whose mode changes go unreported. */
    method Finish() returns (ok: bool)
      requires Valid()
      modifies this, host
      ensures Valid() && old(host.events) <= host.events
      ensures old(hostFailed) ==> !ok && unchanged(this) && unchanged(host)
      ensures !old(hostFailed) ==>
        && runtime == machine.finish(old(runtime)).0 && appliedSize == old(appliedSize)
        && batches == old(batches) + [Batch(machine.finish(old(runtime)).1, false, ok)]
        && hostFailed == !ok
    {
      hide Faithful, Filtered, Reported, Fed, Causes, Changes;
      if hostFailed {
        return false;
      }
      var delta := machine.finish(runtime);
      runtime := delta.0;
      ok := Settle(delta.1, false);
    }

    /** Replaying a batch on the host and latching a failure. */
    method Settle(effects: seq<Effect>, write: bool) returns (ok: bool)
      requires Valid() && !hostFailed
      modifies this`hostFailed, this`batches, host
      ensures Valid() && old(host.events) <= host.events
      ensures batches == old(batches) + [Batch(effects, write, ok)] && hostFailed == !ok
    {
      hide Faithful, Filtered, Reported, Fed, Causes, Changes;
      ghost var done;
      ok, done := host.Apply(policy, effects, write);
      ghost var b := Batch(effects, write, ok);
      FaithfulStep(policy, batches, old(host.events), b, host.events, done);
      FedSnoc(batches, b);
      batches := batches + [b];
      if !ok {
        hostFailed := true;
      }
    }
  }

  // ----- whole runs

  datatype Call = WriteCall(bytes: Bytes, size: Size) | FinishCall

  /** The outcomes are successes up to a point and failures from there on. */
  ghost predicate Latched(outcomes: seq<bool>, first: nat) {
    && first <= |outcomes|
    && (forall j :: 0 <= j < first ==> outcomes[j])
    && (forall j :: first <= j < |outcomes| ==> !outcomes[j])
  }

  /** After the call that fails first, the host sees nothing more. */
  ghost predicate Quiet(history: seq<seq<Event>>, first: nat) {
    forall j :: first + 1 < j < |history| ==> history[j] == history[first + 1]
  }

  /** Any sequence of calls on a fresh adapter.  `history[j]` is what was committed before call `j`. */
  method Drive<R(!new)>(a: Adapter<R>, calls: seq<Call>) returns (outcomes: seq<bool>, ghost history: seq<seq<Event>>, ghost first: nat)
    requires a.Valid() && !a.hostFailed && a.batches == []
    modifies a, a.host
    ensures |outcomes| == |calls| && |history| == |calls| + 1 && history[|calls|] == a.host.events
    ensures Latched(outcomes, first) && Quiet(history, first)
    ensures Faithful(a.policy, a.batches, a.host.events, a.hostFailed) && a.host.reported == Reported(a.batches)
    ensures |a.batches| == (if first < |calls| then first + 1 else |calls|)
    ensures a.hostFailed <==> first < |calls|
  {
    hide Faithful, Reported;
    outcomes, history, first := [], [a.host.events], 0;
    for n := 0 to |calls|
      invariant a.Valid() && |outcomes| == n && |history| == n + 1 && history[n] == a.host.events
      invariant Latched(outcomes, first) && Quiet(history, first)
      invariant a.hostFailed <==> first < n
      invariant |a.batches| == if first < n then first + 1 else n
    {
      ghost var failedBefore := a.hostFailed;
      var ok;
      match calls[n] {
        case WriteCall(bytes, size) => ok := a.Write(bytes, size);
        case FinishCall => ok := a.Finish();
      }
      if !failedBefore && ok {
        first := n + 1;
      }
      outcomes := outcomes + [ok];
      history := history + [a.host.events];
    }
  }

  /** A run without failure commits every effect that the policy lets through. */
  lemma CompleteRun(policy: Policy, batches: seq<Batch>, events: seq<Event>)
    requires Faithful(policy, batches, events, false)
    ensures Causes(events) == Filtered(policy, Fed(batches))
    ensures forall i :: 0 <= i < |batches| ==> batches[i].ok
  {}

  /** Nothing that the policy forbids is ever committed. */
  lemma OnlyPermittedEvents(policy: Policy, batches: seq<Batch>, events: seq<Event>, failed: bool, i: nat)
    requires Faithful(policy, batches, events, failed) && i < |events|
    ensures Passes(policy, Cause(events[i]))
    ensures events[i].Copied? ==> policy != Off
    ensures events[i].Answered? ==> policy == ReadWrite
  {
    hide Passes, Filtered, Fed;
    var all := Filtered(policy, Fed(batches));
    assert Causes(events)[i] == all[i];
    FilteredPasses(policy, Fed(batches), i);
    PassesPolicy(policy, events[i]);
  }

  lemma PassesPolicy(policy: Policy, e: Event)
    requires Passes(policy, Cause(e))
    ensures e.Copied? ==> policy != Off
    ensures e.Answered? ==> policy == ReadWrite
  {}

  lemma {:induction false} FilteredPasses(policy: Policy, effects: seq<Effect>, i: nat)
    requires i < |Filtered(policy, effects)|
    ensures Passes(policy, Filtered(policy, effects)[i])
  {
    hide Passes;
    if i < |Filtered(policy, effects[..|effects| - 1])| { FilteredPasses(policy, effects[..|effects| - 1], i); }
  }
}
