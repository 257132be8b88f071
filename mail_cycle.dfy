/** What a caller sees over several calls: a polling cycle that opens a fresh
    folder and then takes every message with next. */
module MailCycle {
  import opened MailTypes
  import opened MailSpec

  /** The markMessageSeen calls for the messages ms, in order. */
  function MarksOf(ms: seq<Message>): seq<Event>
  {
    if ms == [] then [] else [MarkSeenCalled(ms[0])] + MarksOf(ms[1..])
  }

  /** k calls of next, markMessageSeen returning normally each time: the final
      state and the results in call order. */
  function NextTimes(s: State, k: nat): (r: After<seq<Result<Message>>>)
    ensures |r.result| == k
    decreases k
  {
    if k == 0 then After(s, [])
    else
      var first := NextStep(s, true, true);
      var rest := NextTimes(first.state, k - 1);
      After(rest.state, [first.result] + rest.result)
  }

  /** From a position inside the snapshot, k calls of next that do not run
      past its end leave the folder at position + k, with the next k messages
      of the snapshot marked seen once each, in snapshot order; nothing else
      changes. */
  lemma {:induction false} NextTimesState(s: State, k: nat)
    requires |s.msgs| <= INT32_MAX as int
    requires 0 <= s.position as int && s.position as int + k <= |s.msgs|
    ensures NextTimes(s, k).state == s.(position := (s.position as int + k) as int32,
                                        log := s.log + MarksOf(s.msgs[s.position as int..s.position as int + k]))
    decreases k
  {
    if k > 0 {
      var p := s.position as int;
      var ms := s.msgs[p..p + k];
      var s1 := s.(position := (p + 1) as int32, log := s.log + [MarkSeenCalled(s.msgs[p])]);
      assert NextTimes(s, k).state == NextTimes(s1, k - 1).state by {
        NextDeliversAt(s);
      }
      NextTimesState(s1, k - 1);
      assert s1.msgs[p + 1..p + k] == ms[1..];
      assert s1.log + MarksOf(ms[1..]) == s.log + MarksOf(ms) by {
        assert MarksOf(ms) == [MarkSeenCalled(s.msgs[p])] + MarksOf(ms[1..]);
      }
      assert NextTimes(s1, k - 1).state
        == s1.(position := (p + k) as int32, log := s1.log + MarksOf(ms[1..]));
    }
  }

  /** The same k calls return the next k messages of the snapshot, in order. */
  lemma {:induction false} NextTimesResults(s: State, k: nat)
    requires |s.msgs| <= INT32_MAX as int
    requires 0 <= s.position as int && s.position as int + k <= |s.msgs|
    ensures forall i :: 0 <= i < k ==> NextTimes(s, k).result[i] == Ok(s.msgs[s.position as int + i])
    decreases k
  {
    if k > 0 {
      var p := s.position as int;
      var s1 := s.(position := (p + 1) as int32, log := s.log + [MarkSeenCalled(s.msgs[p])]);
      NextDeliversAt(s);
      NextTimesResults(s1, k - 1);
      var rest := NextTimes(s1, k - 1);
      assert NextTimes(s, k).result == [Ok(s.msgs[p])] + rest.result;
    }
  }

  /** One call of next inside the snapshot, marking succeeding. */
  lemma NextDeliversAt(s: State)
    requires |s.msgs| <= INT32_MAX as int && InRange(s)
    ensures NextStep(s, true, true) == After(
      s.(position := (s.position as int + 1) as int32, log := s.log + [MarkSeenCalled(s.msgs[s.position])]),
      Ok(s.msgs[s.position]))
  {
  }

  /** Draining a snapshot from position 0: n calls of next return its n
      messages in order, with hasNext true before each call and false after
      the last, each marked seen in that order; one more call of next fails
      without returning a message or calling anything. */
  lemma DrainFromStart(t: State)
    requires t.position == 0 && |t.msgs| <= INT32_MAX as int
    ensures var ms := t.msgs;
      var drained := NextTimes(t, |ms|);
      && (forall i :: 0 <= i < |ms| ==> drained.result[i] == Ok(ms[i]))
      && (forall i :: 0 <= i < |ms| ==> HasNextIn(NextTimes(t, i).state))
      && !HasNextIn(drained.state)
      && drained.state.log == t.log + MarksOf(ms)
      && (forall markOk: bool, closeOk: bool ::
            && NextStep(drained.state, markOk, closeOk).result == Err(IndexOutOfBounds)
            && NextStep(drained.state, markOk, closeOk).state.log == drained.state.log)
  {
    var ms := t.msgs;
    assert ms[0..|ms|] == ms;
    NextTimesState(t, |ms|);
    NextTimesResults(t, |ms|);
    var drained := NextTimes(t, |ms|);
    assert drained.state.msgs == ms && drained.state.position as int == |ms|;
    forall markOk: bool, closeOk: bool
      ensures NextStep(drained.state, markOk, closeOk).result == Err(IndexOutOfBounds)
      ensures NextStep(drained.state, markOk, closeOk).state.log == drained.state.log
    {
      NextPastEndFails(drained.state, markOk, closeOk);
    }
    forall i | 0 <= i < |ms|
      ensures HasNextIn(NextTimes(t, i).state)
    {
      NextTimesState(t, i);
    }
  }

  /** A polling cycle: a newly constructed folder whose open succeeds drains
      exactly the fetched messages, as DrainFromStart says. */
  lemma PollingCycle(c: Config, props: map<string, string>, env: OpenEnv)
    requires OpenSucceeds(env) && FetchFits(env)
    ensures var afterOpen := OpenStep(c, Initial(props), env);
      var ms := env.messages.value;
      var drained := NextTimes(afterOpen.state, |ms|);
      && afterOpen.result == Pass
      && (forall i :: 0 <= i < |ms| ==> drained.result[i] == Ok(ms[i]))
      && (forall i :: 0 <= i < |ms| ==> HasNextIn(NextTimes(afterOpen.state, i).state))
      && !HasNextIn(drained.state)
      && drained.state.log == afterOpen.state.log + MarksOf(ms)
      && (forall markOk: bool, closeOk: bool ::
            && NextStep(drained.state, markOk, closeOk).result == Err(IndexOutOfBounds)
            && NextStep(drained.state, markOk, closeOk).state.log == drained.state.log)
  {
    var t := OpenStep(c, Initial(props), env).state;
    assert t.msgs == env.messages.value && t.position == 0;
    DrainFromStart(t);
  }

  /** The position is a Java int: a cursor driven past the end until the
      position wraps around reports hasNext again, yet next still fails. */
  lemma WrappedPositionHasNextButFails(s: State, markOk: bool, closeOk: bool)
    requires s.position == INT32_MAX && |s.msgs| <= INT32_MAX as int
    ensures var t := NextStep(s, markOk, closeOk);
      && t.result == Err(IndexOutOfBounds)
      && t.state.position == INT32_MIN
      && HasNextIn(t.state)
      && NextStep(t.state, markOk, closeOk).result == Err(IndexOutOfBounds)
  {
  }

  /** The wrapped position keeps climbing through the negative values; once
      it is back at 0, next marks and hands out the first message of the
      snapshot again. */
  lemma WrappedPositionReturnsFirstAgain(s: State, markOk: bool, closeOk: bool)
    requires s.position == -1 && 0 < |s.msgs| <= INT32_MAX as int
    ensures var t := NextStep(s, markOk, closeOk);
      var u := NextStep(t.state, true, true);
      && t.result == Err(IndexOutOfBounds)
      && t.state.position == 0
      && HasNextIn(t.state)
      && u.result == Ok(s.msgs[0])
      && u.state.log == s.log + [MarkSeenCalled(s.msgs[0])]
  {
  }
}
