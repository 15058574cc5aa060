/** Compare-and-swap writes to etcd (`SafePut`): read the key's modification revision,
    then put the value in a transaction guarded by that revision. Calls of any number of
    clients interleave step by step; reads, requests and replies may get lost. */
module CasWrites {
  import opened Basics
  import opened Etcd

  /** A write that took effect, by a `SafePut` call or by somebody else. */
  datatype Write = Write(key: Key, call: Option<nat>, revision: nat)

  /** `readAt` is the number of writes that had taken effect when the revision was read;
      `effect` is the position in the history of the call's own write. */
  datatype Reading = Reading(expected: nat, readAt: nat)
  datatype Call = Call(key: Key, value: string, reading: Option<Reading>,
                       served: bool, effect: Option<nat>, result: Option<bool>)

  datatype State = State(server: Server<string>, calls: seq<Call>, history: seq<Write>)

  /** `ServeTxn` serves the transaction, possibly after the caller gave up waiting. */
  datatype Event =
    | Begin(key: Key, value: string)
    | ReadRevision(i: nat, delivered: bool)
    | ServeTxn(i: nat)
    | Return(i: nat, delivered: bool)
    | ForeignPut(key: Key, value: string)

  const INITIAL := State(EmptyServer(), [], [])

  predicate Enabled(s: State, e: Event) {
    match e
    case Begin(_, _) => true
    case ReadRevision(i, _) => i < |s.calls| && s.calls[i].reading.None?
    case ServeTxn(i) => i < |s.calls| && s.calls[i].reading.Some? && !s.calls[i].served
    case Return(i, delivered) =>
      && i < |s.calls| && s.calls[i].reading.Some? && s.calls[i].result.None?
      && (delivered ==> s.calls[i].served)
    case ForeignPut(_, _) => true
  }

  function WriteKey(s: State, key: Key, value: string, call: Option<nat>): State {
    s.(server := Put(s.server, key, value, NO_LEASE),
       history := s.history + [Write(key, call, s.server.revision + 1)])
  }

  function Step(s: State, e: Event): State
    requires Enabled(s, e)
  {
    match e
    case Begin(key, value) => s.(calls := s.calls + [Call(key, value, None, false, None, None)])
    case ReadRevision(i, delivered) =>
      // GetCurrentModVer answers 0 both for an absent key and for a failed read.
      var expected := if delivered then ModRevision(s.server, s.calls[i].key) else 0;
      s.(calls := s.calls[i := s.calls[i].(reading := Some(Reading(expected, |s.history|)))])
    case ServeTxn(i) =>
      var call := s.calls[i];
      if ModRevision(s.server, call.key) == call.reading.value.expected then
        WriteKey(s, call.key, call.value, Some(i)).(
          calls := s.calls[i := call.(served := true, effect := Some(|s.history|))])
      else s.(calls := s.calls[i := call.(served := true)])
    case Return(i, delivered) =>
      s.(calls := s.calls[i := s.calls[i].(result := Some(delivered && s.calls[i].effect.Some?))])
    case ForeignPut(key, value) => WriteKey(s, key, value, None)
  }

  function Run(s: State, events: seq<Event>): Option<State>
    decreases |events|
  {
    if events == [] then Some(s)
    else if Enabled(s, events[0]) then Run(Step(s, events[0]), events[1..])
    else None
  }

  // ----- the history determines every revision ------------------------------------------------

  function LastRevision(history: seq<Write>, key: Key): nat {
    if history == [] then 0
    else if history[|history| - 1].key == key then history[|history| - 1].revision
    else LastRevision(history[..|history| - 1], key)
  }

  ghost predicate Increasing(history: seq<Write>) {
    forall i, j | 0 <= i < j < |history| :: 0 < history[i].revision < history[j].revision
  }

  lemma {:induction false} LastRevisionBounds(history: seq<Write>, key: Key, k: nat)
    requires Increasing(history) && k < |history| && history[k].key == key
    ensures history[k].revision <= LastRevision(history, key)
  {
    if history[|history| - 1].key != key {
      assert history[..|history| - 1][k] == history[k];
      LastRevisionBounds(history[..|history| - 1], key, k);
    }
  }

  /** The last revision of a key is that of an entry, so it lies below everything later. */
  lemma {:induction false} LastRevisionIsEarlier(history: seq<Write>, k: nat, key: Key)
    requires k < |history| && Increasing(history)
    requires 0 < history[k].revision
    ensures LastRevision(history[..k], key) < history[k].revision
  {
    if k > 0 && history[k - 1].key != key {
      assert history[..k][..k - 1] == history[..k - 1];
      LastRevisionIsEarlier(history, k - 1, key);
    }
  }

  ghost predicate CallInv(s: State, i: nat)
    requires i < |s.calls|
  {
    var call := s.calls[i];
    && (call.reading.Some? ==>
        && call.reading.value.readAt <= |s.history|
        && call.reading.value.expected in {0, LastRevision(s.history[..call.reading.value.readAt], call.key)})
    && (call.effect.Some? ==>
        && call.served && call.reading.Some? && call.reading.value.readAt <= call.effect.value < |s.history|
        && s.history[call.effect.value].key == call.key && s.history[call.effect.value].call == Some(i)
        && LastRevision(s.history[..call.effect.value], call.key) == call.reading.value.expected)
    && (call.result == Some(true) ==> call.effect.Some?)
  }

  ghost predicate Inv(s: State) {
    && (forall w | 0 <= w < |s.history| :: 0 < s.history[w].revision <= s.server.revision)
    && Increasing(s.history)
    && (forall key :: ModRevision(s.server, key) == LastRevision(s.history, key))
    && forall i | 0 <= i < |s.calls| :: CallInv(s, i)
  }

  lemma AppendKeepsCallInv(s: State, s': State, i: nat)
    requires i < |s.calls| && i < |s'.calls| && CallInv(s, i) && s'.calls[i] == s.calls[i]
    requires |s.history| <= |s'.history| && s'.history[..|s.history|] == s.history
    ensures CallInv(s', i)
  {
    var call := s.calls[i];
    if call.reading.Some? {
      assert s'.history[..call.reading.value.readAt] == s.history[..call.reading.value.readAt];
    }
    if call.effect.Some? {
      assert s'.history[..call.effect.value] == s.history[..call.effect.value];
    }
  }

  lemma WriteKeepsServerInv(s: State, key: Key, value: string, call: Option<nat>)
    requires Inv(s)
    ensures var s' := WriteKey(s, key, value, call);
            && (forall w | 0 <= w < |s'.history| :: 0 < s'.history[w].revision <= s'.server.revision)
            && Increasing(s'.history)
            && (forall k :: ModRevision(s'.server, k) == LastRevision(s'.history, k))
  {
    var s' := WriteKey(s, key, value, call);
    assert s'.history[..|s'.history| - 1] == s.history;
  }

  lemma StepKeepsInv(s: State, e: Event)
    requires Inv(s) && Enabled(s, e)
    ensures Inv(Step(s, e))
  {
    var s' := Step(s, e);
    if e.ForeignPut? { WriteKeepsServerInv(s, e.key, e.value, None); }
    if e.ServeTxn? { WriteKeepsServerInv(s, s.calls[e.i].key, s.calls[e.i].value, Some(e.i)); }
    forall i | 0 <= i < |s'.calls| ensures CallInv(s', i) {
      if i < |s.calls| && s'.calls[i] == s.calls[i] {
        AppendKeepsCallInv(s, s', i);
      } else if i < |s.calls| {
        assert CallInv(s, i);
        assert s'.history[..|s.history|] == s.history;
        AppendKeepsCallInv(s, s'.(calls := s.calls), i);
      }
    }
  }

  lemma {:induction false} RunKeepsInv(s: State, events: seq<Event>)
    requires Inv(s)
    ensures Run(s, events).Some? ==> Inv(Run(s, events).value)
    decreases |events|
  {
    if events != [] && Enabled(s, events[0]) {
      StepKeepsInv(s, events[0]);
      RunKeepsInv(Step(s, events[0]), events[1..]);
    }
  }

  // ----- no lost update ---------------------------------------------------------------------------

  /** A call that reports success wrote its key, at a point of the history before which no
      other write to that key took effect since the call read the revision. This covers a
      failed read too, although `SafePut` then carries on with revision 0. */
  lemma SuccessLosesNoUpdate(events: seq<Event>, i: nat)
    requires Run(INITIAL, events).Some?
    requires var s := Run(INITIAL, events).value;
             i < |s.calls| && s.calls[i].result == Some(true)
    ensures var s := Run(INITIAL, events).value;
            && s.calls[i].reading.Some? && s.calls[i].effect.Some?
            && s.calls[i].reading.value.readAt <= s.calls[i].effect.value < |s.history|
            && s.history[s.calls[i].effect.value].key == s.calls[i].key
            && s.history[s.calls[i].effect.value].call == Some(i)
            && forall w | s.calls[i].reading.value.readAt <= w < s.calls[i].effect.value ::
                 s.history[w].key != s.calls[i].key
  {
    RunKeepsInv(INITIAL, events);
    var s := Run(INITIAL, events).value;
    var call := s.calls[i];
    assert CallInv(s, i);
    var readAt, effect := call.reading.value.readAt, call.effect.value;
    forall w | readAt <= w < effect ensures s.history[w].key != call.key {
      if s.history[w].key == call.key {
        var before := s.history[..effect];
        assert before[w] == s.history[w];
        LastRevisionBounds(before, call.key, w);
        if readAt < |s.history| {
          assert before[..readAt] == s.history[..readAt];
          LastRevisionIsEarlier(s.history, readAt, call.key);
        }
        assert false;
      }
    }
  }

  /** Of several calls on one key that read the same revision, at most one takes effect,
      whatever they report. */
  lemma OneWinnerPerRevision(events: seq<Event>, i: nat, j: nat)
    requires Run(INITIAL, events).Some?
    requires var s := Run(INITIAL, events).value;
             && i < |s.calls| && j < |s.calls| && s.calls[i].effect.Some? && s.calls[j].effect.Some?
             && s.calls[i].key == s.calls[j].key
             && s.calls[i].reading.Some? && s.calls[j].reading.Some?
             && s.calls[i].reading.value.expected == s.calls[j].reading.value.expected
    ensures i == j
  {
    RunKeepsInv(INITIAL, events);
    var s := Run(INITIAL, events).value;
    assert CallInv(s, i) && CallInv(s, j);
    if s.calls[i].effect.value < s.calls[j].effect.value {
      LaterEffectReadLater(s, i, j);
    } else if s.calls[j].effect.value < s.calls[i].effect.value {
      LaterEffectReadLater(s, j, i);
    }
  }

  lemma LaterEffectReadLater(s: State, i: nat, j: nat)
    requires Inv(s) && i < |s.calls| && j < |s.calls| && s.calls[i].key == s.calls[j].key
    requires s.calls[i].effect.Some? && s.calls[j].effect.Some?
    requires s.calls[i].effect.value < s.calls[j].effect.value
    ensures s.calls[i].reading.Some? && s.calls[j].reading.Some?
    ensures s.calls[i].reading.value.expected < s.calls[j].reading.value.expected
  {
    assert CallInv(s, i) && CallInv(s, j);
    var key, first, second := s.calls[i].key, s.calls[i].effect.value, s.calls[j].effect.value;
    assert s.history[..second][first] == s.history[first];
    LastRevisionBounds(s.history[..second], key, first);
    LastRevisionIsEarlier(s.history, first, key);
  }

  // ----- what a call answers ----------------------------------------------------------------------

  /** No write to the key took effect since the call read its revision; a call that read
      revision 0, from an absent key or by a failed read, needs one never written at all. */
  ghost predicate Undisturbed(s: State, i: nat)
    requires i < |s.calls| && s.calls[i].reading.Some? && s.calls[i].reading.value.readAt <= |s.history|
  {
    var reading := s.calls[i].reading.value;
    forall w | (if reading.expected == 0 then 0 else reading.readAt) <= w < |s.history| :: s.history[w].key != s.calls[i].key
  }

  lemma {:induction false} LastRevisionAfter(history: seq<Write>, k: nat, key: Key)
    requires k <= |history| && Increasing(history) && (forall w | 0 <= w < |history| :: 0 < history[w].revision)
    ensures (forall w | k <= w < |history| :: history[w].key != key) ==>
              LastRevision(history, key) == LastRevision(history[..k], key)
    ensures (exists w | k <= w < |history| :: history[w].key == key) ==>
              LastRevision(history, key) > LastRevision(history[..k], key)
  {
    if k == |history| {
      assert history[..k] == history;
    } else {
      var rest := history[..|history| - 1];
      assert rest[..k] == history[..k];
      LastRevisionAfter(rest, k, key);
      if history[|history| - 1].key == key {
        LastRevisionIsEarlier(history, |history| - 1, key);
      } else {
        assert forall w | k <= w < |rest| :: rest[w] == history[w];
      }
    }
  }

  lemma MatchesIff(s: State, i: nat)
    requires Inv(s) && i < |s.calls| && s.calls[i].reading.Some? && s.calls[i].reading.value.readAt <= |s.history|
    ensures ModRevision(s.server, s.calls[i].key) == s.calls[i].reading.value.expected <==> Undisturbed(s, i)
  {
    var key, reading := s.calls[i].key, s.calls[i].reading.value;
    assert CallInv(s, i);
    LastRevisionAfter(s.history, if reading.expected == 0 then 0 else reading.readAt, key);
    assert LastRevision(s.history[..0], key) == 0;
  }

  /** In every reachable state: serving a call's transaction stores its value if and only if the
      key was left alone since, and otherwise changes nothing on the server; a delivered reply
      then answers true exactly in the first case, and a lost one answers false. */
  lemma ServedAndAnsweredIff(events: seq<Event>, i: nat, delivered: bool)
    requires Run(INITIAL, events).Some? && Enabled(Run(INITIAL, events).value, ServeTxn(i))
    ensures var s := Run(INITIAL, events).value;
            s.calls[i].reading.value.readAt <= |s.history|
    ensures var s := Run(INITIAL, events).value;
            var key, value, served := s.calls[i].key, s.calls[i].value, Step(s, ServeTxn(i));
            && (Undisturbed(s, i) ==> key in served.server.kvs && served.server.kvs[key].value == value
                                      && served.history == s.history + [Write(key, Some(i), s.server.revision + 1)])
            && (!Undisturbed(s, i) ==> served.server == s.server && served.history == s.history)
            && (s.calls[i].result.None? ==>
                && Enabled(served, Return(i, delivered))
                && Step(served, Return(i, delivered)).calls[i].result == Some(delivered && Undisturbed(s, i)))
  {
    RunKeepsInv(INITIAL, events);
    var s := Run(INITIAL, events).value;
    assert CallInv(s, i);
    MatchesIff(s, i);
  }

  // ----- the call itself --------------------------------------------------------------------------

  /** The writes other clients get in between the read and the transaction. */
  function WriteAll(sv: Server<string>, writes: seq<(Key, string)>): Server<string> {
    if writes == [] then sv
    else Put(WriteAll(sv, writes[..|writes| - 1]), writes[|writes| - 1].0, writes[|writes| - 1].1, NO_LEASE)
  }

  lemma {:induction false} WriteAllRevision(sv: Server<string>, writes: seq<(Key, string)>, key: Key)
    requires Valid(sv)
    ensures WriteAll(sv, writes).revision == sv.revision + |writes|
    ensures if exists w | w in writes :: w.0 == key
            then sv.revision < ModRevision(WriteAll(sv, writes), key)
            else ModRevision(WriteAll(sv, writes), key) == ModRevision(sv, key)
  {
    if writes != [] {
      WriteAllRevision(sv, writes[..|writes| - 1], key);
      assert writes == writes[..|writes| - 1] + [writes[|writes| - 1]];
    }
  }

  /** A call as steps of the interleaved system, with the others' writes in between. */
  function ForeignPuts(writes: seq<(Key, string)>): seq<Event> {
    seq(|writes|, i requires 0 <= i < |writes| => ForeignPut(writes[i].0, writes[i].1))
  }

  function CallEvents(key: Key, value: string, readDelivered: bool, between: seq<(Key, string)>, replyDelivered: bool)
    : seq<Event>
  {
    [Begin(key, value), ReadRevision(0, readDelivered)] + ForeignPuts(between) + [ServeTxn(0), Return(0, replyDelivered)]
  }

  lemma {:induction false} RunConcat(s: State, first: seq<Event>, second: seq<Event>)
    requires Run(s, first).Some?
    ensures Run(s, first + second) == Run(Run(s, first).value, second)
    decreases |first|
  {
    if first == [] {
      assert first + second == second;
    } else {
      assert (first + second)[1..] == first[1..] + second;
      RunConcat(Step(s, first[0]), first[1..], second);
    }
  }

  lemma {:induction false} ForeignPutsRun(s: State, writes: seq<(Key, string)>)
    ensures var run := Run(s, ForeignPuts(writes));
            run.Some? && run.value.server == WriteAll(s.server, writes) && run.value.calls == s.calls
  {
    if writes != [] {
      var rest, last := writes[..|writes| - 1], writes[|writes| - 1];
      ForeignPutsRun(s, rest);
      var put := ForeignPut(last.0, last.1);
      assert ForeignPuts(writes) == ForeignPuts(rest) + [put];
      RunConcat(s, ForeignPuts(rest), [put]);
      RunOne(Run(s, ForeignPuts(rest)).value, put);
    }
  }

  lemma RunOne(s: State, e: Event)
    requires Enabled(s, e)
    ensures Run(s, [e]) == Some(Step(s, e))
  {
    assert Run(Step(s, e), [e][1..]) == Some(Step(s, e));
  }

  lemma RunTwo(s: State, e: Event, f: Event)
    requires Enabled(s, e) && Enabled(Step(s, e), f)
    ensures Run(s, [e, f]) == Some(Step(Step(s, e), f))
  {
    assert [e, f][1..] == [f];
    RunOne(Step(s, e), f);
  }

  /** Where the steps of a call lead. */
  lemma CallRuns(sv: Server<string>, key: Key, value: string, readDelivered: bool, between: seq<(Key, string)>,
                 replyDelivered: bool)
    ensures var run := Run(State(sv, [], []), CallEvents(key, value, readDelivered, between, replyDelivered));
            var middle := WriteAll(sv, between);
            var same := ModRevision(middle, key) == if readDelivered then ModRevision(sv, key) else 0;
            && run.Some? && |run.value.calls| == 1 && run.value.calls[0].result == Some(replyDelivered && same)
            && run.value.server == if same then Put(middle, key, value, NO_LEASE) else middle
  {
    var s0, puts := State(sv, [], []), ForeignPuts(between);
    var opening, closing := [Begin(key, value), ReadRevision(0, readDelivered)], [ServeTxn(0), Return(0, replyDelivered)];
    RunTwo(s0, opening[0], opening[1]);
    var s2 := Run(s0, opening).value;
    ForeignPutsRun(s2, between);
    RunConcat(s0, opening, puts);
    RunConcat(s0, opening + puts, closing);
    var s3 := Run(s2, puts).value;
    RunTwo(s3, closing[0], closing[1]);
  }

  class EtcdServer {
    var sv: Server<string>

    constructor ()
      ensures sv == EmptyServer()
    {
      sv := EmptyServer();
    }

    /** `GetCurrentModVer`. */
    method GetCurrentModVer(key: Key, delivered: bool) returns (revision: nat)
      ensures revision == if delivered then ModRevision(sv, key) else 0
    {
      if delivered && key in sv.kvs { return sv.kvs[key].modRevision; }
      return 0;
    }

    /** The call reports success exactly when its reply arrives and nobody wrote the key in
        between, given a delivered read. The value is stored, on top of the others' writes,
        whenever it reports success, and never when a delivered reply says otherwise. Server
        and answer are those that the steps of the interleaved system lead to. */
    method SafePut(key: Key, value: string, readDelivered: bool, between: seq<(Key, string)>, replyDelivered: bool)
      returns (ok: bool)
      requires Valid(sv)
      modifies this
      ensures readDelivered ==> (ok <==> replyDelivered && forall w | w in between :: w.0 != key)
      ensures ok ==> forall w | w in between :: w.0 != key
      ensures ok ==> sv == Put(WriteAll(old(sv), between), key, value, NO_LEASE)
      ensures replyDelivered && !ok ==> sv == WriteAll(old(sv), between)
      ensures var run := Run(State(old(sv), [], []), CallEvents(key, value, readDelivered, between, replyDelivered));
              run.Some? && run.value.server == sv && |run.value.calls| == 1 && run.value.calls[0].result == Some(ok)
    {
      var expectedRevision := GetCurrentModVer(key, readDelivered);
      WriteAllRevision(sv, between, key);
      CallRuns(sv, key, value, readDelivered, between, replyDelivered);
      for i := 0 to |between|
        invariant sv == WriteAll(old(sv), between[..i])
      {
        assert between[..i + 1][..i] == between[..i];
        sv := Put(sv, between[i].0, between[i].1, NO_LEASE);
      }
      assert between[..|between|] == between;
      var succeeded := ModRevision(sv, key) == expectedRevision;
      if succeeded {
        sv := Put(sv, key, value, NO_LEASE);
      }
      ok := replyDelivered && succeeded;
    }
  }
}
