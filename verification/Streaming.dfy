/** The writer's life as a state machine: what each call does to the held-back
    bytes, and what that means for the whole stream. */
module Streaming {
  import opened Common
  import opened Redaction

  /** emitted is what has reached the inner writer; outcomes scripts its next
      writes (false is a failure that writes nothing, success once exhausted). */
  datatype Stream = Stream(secrets: set<Text>, pending: Text, emitted: seq<Token>, outcomes: seq<bool>)

  datatype Op = AddSecrets(list: seq<Text>) | Write(p: Text) | Close

  datatype Drained = Drained(tokens: seq<Token>, rest: Text, outcomes: seq<bool>, ok: bool)

  predicate NextWriteFails(outcomes: seq<bool>) { outcomes != [] && !outcomes[0] }

  function AfterWrite(outcomes: seq<bool>): seq<bool> { if outcomes == [] then [] else outcomes[1..] }

  /** What one pass over the pending buffer emits and holds back. */
  function Drain(secrets: set<Text>, buf: Text, flush: bool, outcomes: seq<bool>): Drained
    decreases |buf|
  {
    if buf == [] || (!flush && CouldGrow(secrets, buf)) then
      Drained([], buf, outcomes, true)
    else if NextWriteFails(outcomes) then
      Drained([], buf, AfterWrite(outcomes), false)
    else
      var t := FirstToken(secrets, buf);
      var d := Drain(secrets, buf[Width(t)..], flush, AfterWrite(outcomes));
      d.(tokens := [t] + d.tokens)
  }

  function NonEmpty(list: seq<Text>): set<Text> { set t | t in list && t != [] }

  function Pass(st: Stream, p: Text, flush: bool): Drained {
    Drain(st.secrets, st.pending + p, flush, st.outcomes)
  }

  function Apply(st: Stream, op: Op): Stream {
    match op
    case AddSecrets(list) => st.(secrets := st.secrets + NonEmpty(list))
    case Write(p) =>
      var d := Pass(st, p, false);
      Stream(st.secrets, d.rest, st.emitted + d.tokens, d.outcomes)
    case Close =>
      var d := Pass(st, [], true);
      Stream(st.secrets, d.rest, st.emitted + d.tokens, d.outcomes)
  }

  function Run(st: Stream, ops: seq<Op>): Stream
    decreases |ops|
  {
    if ops == [] then st else Run(Apply(st, ops[0]), ops[1..])
  }

  function Payload(op: Op): Text { if op.Write? then op.p else [] }

  /** Every byte the calls handed over, failed calls included. */
  function Appended(ops: seq<Op>): Text {
    if ops == [] then []
    else Payload(ops[0]) + Appended(ops[1..])
  }

  function Fresh(secrets: set<Text>): Stream { Stream(secrets, [], [], []) }

  ghost predicate AllSucceed(outcomes: seq<bool>) { forall k :: 0 <= k < |outcomes| ==> outcomes[k] }

  ghost predicate NoFailuresAhead(st: Stream) { AllSucceed(st.outcomes) }

  /** Nothing is held back but the start of a secret that more input could complete. */
  predicate Settled(st: Stream) { st.pending == [] || CouldGrow(st.secrets, st.pending) }

  // ---------------------------------------------------------------- one pass

  /** When the pause rule does not fire, no future input changes the longest match. */
  lemma MatchIsFinal(secrets: set<Text>, buf: Text, future: Text)
    requires !CouldGrow(secrets, buf)
    ensures LongestMatch(secrets, buf + future) == LongestMatch(secrets, buf)
  {
    var all := buf + future;
    forall m | 0 < m <= |all| && all[..m] in secrets ensures m <= |buf| && all[..m] == buf[..m] {
      assert buf <= all[..m] || m <= |buf|;
    }
    var n := LongestMatch(secrets, buf);
    assert n > 0 ==> all[..n] == buf[..n];
  }

  /** The pause is never needless: it fires exactly when some further input would make a
      longer match than any within the buffer. */
  lemma PausesOnlyForALongerMatch(secrets: set<Text>, buf: Text)
    ensures CouldGrow(secrets, buf) <==> exists future :: LongestMatch(secrets, buf + future) > |buf|
  {
    if CouldGrow(secrets, buf) {
      var t :| t in secrets && buf < t;
      var future := t[|buf|..];
      assert buf + future == t && t[..|t|] == t;
      assert LongestMatch(secrets, buf + future) > |buf|;
    } else {
      forall future ensures LongestMatch(secrets, buf + future) <= |buf| {
        MatchIsFinal(secrets, buf, future);
      }
    }
  }

  lemma FirstTokenIsFinal(secrets: set<Text>, buf: Text, future: Text)
    requires buf != [] && !CouldGrow(secrets, buf)
    ensures FirstToken(secrets, buf + future) == FirstToken(secrets, buf)
  {
    MatchIsFinal(secrets, buf, future);
    var n := LongestMatch(secrets, buf);
    assert (buf + future)[..n] == buf[..n];
  }

  /** The case of Drain that emits one token and goes on. */
  lemma DrainStep(secrets: set<Text>, buf: Text, flush: bool, outcomes: seq<bool>) returns (t: Token, d: Drained)
    requires buf != [] && (flush || !CouldGrow(secrets, buf)) && !NextWriteFails(outcomes)
    ensures t == FirstToken(secrets, buf)
    ensures d == Drain(secrets, buf[Width(t)..], flush, AfterWrite(outcomes))
    ensures Drain(secrets, buf, flush, outcomes) == d.(tokens := [t] + d.tokens)
  {
    t := FirstToken(secrets, buf);
    d := Drain(secrets, buf[Width(t)..], flush, AfterWrite(outcomes));
  }

  lemma TokensStep(secrets: set<Text>, buf: Text, future: Text)
    requires buf != [] && (future == [] || !CouldGrow(secrets, buf))
    ensures var t := FirstToken(secrets, buf);
      Tokens(secrets, buf + future) == [t] + Tokens(secrets, buf[Width(t)..] + future)
  {
    if future == [] {
      assert buf + future == buf;
    } else {
      FirstTokenIsFinal(secrets, buf, future);
    }
    DropOfConcat(buf, future, Width(FirstToken(secrets, buf)));
  }

  /** A pass commits to exactly the tokens the whole input would get, whatever
      follows; a flushing pass knows that nothing follows. */
  lemma {:induction false} DrainCommitsToTheWhole(secrets: set<Text>, buf: Text, flush: bool, outcomes: seq<bool>,
                                                  future: Text)
    requires flush ==> future == []
    ensures var d := Drain(secrets, buf, flush, outcomes);
      Tokens(secrets, buf + future) == d.tokens + Tokens(secrets, d.rest + future)
    decreases |buf|
  {
    if buf == [] || (!flush && CouldGrow(secrets, buf)) || NextWriteFails(outcomes) {
    } else {
      var t, d := DrainStep(secrets, buf, flush, outcomes);
      DrainCommitsToTheWhole(secrets, buf[Width(t)..], flush, AfterWrite(outcomes), future);
      TokensStep(secrets, buf, future);
      ConcatAssociates([t], d.tokens, Tokens(secrets, d.rest + future));
    }
  }

  lemma {:induction false} DrainConserves(secrets: set<Text>, buf: Text, flush: bool, outcomes: seq<bool>)
    ensures var d := Drain(secrets, buf, flush, outcomes); Source(d.tokens) + d.rest == buf
    decreases |buf|
  {
    if buf == [] || (!flush && CouldGrow(secrets, buf)) || NextWriteFails(outcomes) {
    } else {
      var t, d := DrainStep(secrets, buf, flush, outcomes);
      DrainConserves(secrets, buf[Width(t)..], flush, AfterWrite(outcomes));
      ConcatAssociates(Original(t), Source(d.tokens), d.rest);
      TakeAndDrop(buf, Width(t));
      assert ([t] + d.tokens)[1..] == d.tokens;
    }
  }

  /** A pass that succeeds holds back only what may still grow; it succeeds unless
      a write fails. */
  lemma {:induction false} DrainSettles(secrets: set<Text>, buf: Text, flush: bool, outcomes: seq<bool>)
    ensures var d := Drain(secrets, buf, flush, outcomes);
      && (d.ok ==> d.rest == [] || (!flush && CouldGrow(secrets, d.rest)))
      && (AllSucceed(outcomes) ==> d.ok && AllSucceed(d.outcomes))
    decreases |buf|
  {
    if buf == [] || (!flush && CouldGrow(secrets, buf)) || NextWriteFails(outcomes) {
    } else {
      DrainSettles(secrets, buf[Width(FirstToken(secrets, buf))..], flush, AfterWrite(outcomes));
    }
  }

  /** One write for each token; the pass succeeds if and only if none of them fails,
      and the first that fails ends it. */
  lemma {:induction false} DrainWrites(secrets: set<Text>, buf: Text, flush: bool, outcomes: seq<bool>)
    ensures WritesOf(outcomes, Drain(secrets, buf, flush, outcomes))
    decreases |buf|
  {
    if buf == [] || (!flush && CouldGrow(secrets, buf)) || NextWriteFails(outcomes) {
    } else {
      var t, d := DrainStep(secrets, buf, flush, outcomes);
      DrainWrites(secrets, buf[Width(t)..], flush, AfterWrite(outcomes));
      OneMoreWrite(outcomes, t, d);
    }
  }

  ghost predicate WritesOf(outcomes: seq<bool>, d: Drained) {
    && (forall k :: 0 <= k < |d.tokens| && k < |outcomes| ==> outcomes[k])
    && (!d.ok ==> |d.tokens| < |outcomes| && !outcomes[|d.tokens|])
    && d.outcomes == After(outcomes, |d.tokens| + (if d.ok then 0 else 1))
  }

  lemma OneMoreWrite(outcomes: seq<bool>, t: Token, d: Drained)
    requires !NextWriteFails(outcomes) && WritesOf(AfterWrite(outcomes), d)
    ensures WritesOf(outcomes, d.(tokens := [t] + d.tokens))
  {
    assert forall k :: 1 <= k < |outcomes| ==> outcomes[k] == AfterWrite(outcomes)[k - 1];
  }

  /** The outcomes left after n writes. */
  function After(outcomes: seq<bool>, n: nat): seq<bool> {
    if n <= |outcomes| then outcomes[n..] else []
  }

  // ---------------------------------------------------------------- whole runs

  lemma ApplyConserves(st: Stream, op: Op)
    ensures Source(Apply(st, op).emitted) + Apply(st, op).pending == (Source(st.emitted) + st.pending) + Payload(op)
  {
    if !op.AddSecrets? {
      var buf := st.pending + Payload(op);
      var d := Drain(st.secrets, buf, op.Close?, st.outcomes);
      DrainConserves(st.secrets, buf, op.Close?, st.outcomes);
      SourceConcat(st.emitted, d.tokens);
      ConcatAssociates(Source(st.emitted), Source(d.tokens), d.rest);
      ConcatAssociates(Source(st.emitted), st.pending, Payload(op));
    }
  }

  /** Bytes are neither lost nor invented in any run, failed writes included. */
  lemma {:induction false} RunConserves(st: Stream, ops: seq<Op>)
    ensures Source(Run(st, ops).emitted) + Run(st, ops).pending ==
            (Source(st.emitted) + st.pending) + Appended(ops)
    decreases |ops|
  {
    if ops != [] {
      RunConserves(Apply(st, ops[0]), ops[1..]);
      ApplyConserves(st, ops[0]);
      ConcatAssociates(Source(st.emitted) + st.pending, Payload(ops[0]), Appended(ops[1..]));
    }
  }

  /** Without inner errors, after any calls at all the writer holds back nothing
      but a proper prefix of a registered secret. */
  lemma {:induction false} RunSettles(st: Stream, ops: seq<Op>)
    requires Settled(st) && NoFailuresAhead(st)
    ensures Settled(Run(st, ops)) && NoFailuresAhead(Run(st, ops))
    ensures Run(st, ops).pending == [] || exists t :: t in Run(st, ops).secrets && Run(st, ops).pending < t
    decreases |ops|
  {
    if ops == [] {
    } else {
      var op, next := ops[0], Apply(st, ops[0]);
      match op {
        case AddSecrets(list) => assert st.secrets <= next.secrets;
        case Write(p) => DrainSettles(st.secrets, st.pending + p, false, st.outcomes);
        case Close => DrainSettles(st.secrets, st.pending + [], true, st.outcomes);
      }
      RunSettles(next, ops[1..]);
    }
  }

  ghost predicate OnlyWrites(ops: seq<Op>) { forall k :: 0 <= k < |ops| ==> ops[k].Write? }

  /** Whatever happened before (failures, secrets added mid-stream), the writes
      still to come only continue one left-to-right pass over the held-back bytes
      and everything written. */
  lemma {:induction false} WritesContinueOnePass(st: Stream, ops: seq<Op>, future: Text)
    requires OnlyWrites(ops)
    ensures Run(st, ops).secrets == st.secrets
    ensures Run(st, ops).emitted + Tokens(st.secrets, Run(st, ops).pending + future) ==
            st.emitted + Tokens(st.secrets, st.pending + (Appended(ops) + future))
    decreases |ops|
  {
    if ops == [] {
      assert [] + future == future;
    } else {
      var p, rest, next := ops[0].p, ops[1..], Apply(st, ops[0]);
      var later := Appended(rest) + future;
      WritesContinueOnePass(next, rest, future);
      DrainCommitsToTheWhole(st.secrets, st.pending + p, false, st.outcomes, later);
      var d := Pass(st, p, false);
      ConcatAssociates(st.emitted, d.tokens, Tokens(st.secrets, d.rest + later));
      ConcatAssociates(st.pending, p, later);
      ConcatAssociates(p, Appended(rest), future);
    }
  }

  /** From any state without failures ahead: write, in any chunks, then close. The
      output is what was already out, followed by the one-shot redaction, under the
      secrets registered now, of the held-back bytes and the concatenated chunks. */
  lemma EventualOutput(st: Stream, ops: seq<Op>)
    requires OnlyWrites(ops) && NoFailuresAhead(st)
    ensures var end := Run(st, ops + [Close]);
      && end.pending == []
      && end.emitted == st.emitted + Tokens(st.secrets, st.pending + Appended(ops))
      && Render(end.emitted) == Render(st.emitted) + Redact(st.secrets, st.pending + Appended(ops))
  {
    var mid := Run(st, ops);
    RunAppend(st, ops, [Close]);
    assert [Close][1..] == [];
    WritesContinueOnePass(st, ops, []);
    NoFailuresStay(st, ops);
    var buf := mid.pending + [];
    DrainSettles(mid.secrets, buf, true, mid.outcomes);
    DrainCommitsToTheWhole(mid.secrets, buf, true, mid.outcomes, []);
    assert Appended(ops) + [] == Appended(ops);
    assert buf + [] == buf;
    RenderConcat(st.emitted, Tokens(st.secrets, st.pending + Appended(ops)));
  }

  /** Streaming refines one-shot redaction: only the concatenated text matters,
      not how it was cut into writes. */
  lemma StreamingIsOneShot(secrets: set<Text>, ops: seq<Op>)
    requires OnlyWrites(ops)
    ensures Run(Fresh(secrets), ops + [Close]).emitted == Tokens(secrets, Appended(ops))
    ensures Render(Run(Fresh(secrets), ops + [Close]).emitted) == Redact(secrets, Appended(ops))
  {
    EventualOutput(Fresh(secrets), ops);
    assert [] + Appended(ops) == Appended(ops);
  }

  /** Only the set of non-empty secrets counts, not their order or repetitions,
      and registering in several calls is registering at once. */
  lemma RegistrationIsASet(st: Stream, a: seq<Text>, b: seq<Text>, ops: seq<Op>)
    ensures NonEmpty(a) == NonEmpty(b) ==>
            Run(Apply(st, AddSecrets(a)), ops) == Run(Apply(st, AddSecrets(b)), ops)
    ensures Run(st, [AddSecrets(a), AddSecrets(b)] + ops) == Run(st, [AddSecrets(b + a)] + ops)
  {
    var two, one := [AddSecrets(a), AddSecrets(b)] + ops, [AddSecrets(b + a)] + ops;
    assert NonEmpty(b + a) == NonEmpty(a) + NonEmpty(b);
    assert two[1..] == [AddSecrets(b)] + ops && two[1..][1..] == ops && one[1..] == ops;
    assert Apply(Apply(st, two[0]), two[1]) == Apply(st, one[0]);
  }

  ghost predicate Registers(ops: seq<Op>, u: Text) {
    exists k :: 0 <= k < |ops| && ops[k].AddSecrets? && u in ops[k].list
  }

  /** A run registers exactly the non-empty texts it was given, and forgets none. */
  lemma {:induction false} SecretsAfter(st: Stream, ops: seq<Op>, u: Text)
    ensures u in Run(st, ops).secrets <==> u in st.secrets || (u != [] && Registers(ops, u))
    decreases |ops|
  {
    if ops != [] {
      var rest := ops[1..];
      SecretsAfter(Apply(st, ops[0]), rest, u);
      if k :| 0 <= k < |rest| && rest[k].AddSecrets? && u in rest[k].list {
        assert ops[k + 1] == rest[k];
      }
      if k :| 0 <= k < |ops| && ops[k].AddSecrets? && u in ops[k].list && k > 0 {
        assert rest[k - 1] == ops[k];
      }
    }
  }

  lemma {:induction false} RunAppend(st: Stream, a: seq<Op>, b: seq<Op>)
    ensures Run(st, a + b) == Run(Run(st, a), b)
    decreases |a|
  {
    if a == [] {
      assert a + b == b;
    } else {
      assert (a + b)[1..] == a[1..] + b;
      RunAppend(Apply(st, a[0]), a[1..], b);
    }
  }

  lemma {:induction false} NoFailuresStay(st: Stream, ops: seq<Op>)
    requires OnlyWrites(ops) && NoFailuresAhead(st)
    ensures NoFailuresAhead(Run(st, ops))
    decreases |ops|
  {
    if ops != [] {
      DrainSettles(st.secrets, st.pending + ops[0].p, false, st.outcomes);
      NoFailuresStay(Apply(st, ops[0]), ops[1..]);
    }
  }
}
