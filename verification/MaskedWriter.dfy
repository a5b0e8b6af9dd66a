/** The writer itself: fields updated in place, one call at a time under its lock,
    each call proved to be one step of the Streaming machine. */
module MaskedWriter {
  import opened Common
  import opened Redaction
  import Streaming

  /** The underlying io.Writer. Its outcomes are scripted; a failing write writes nothing. */
  class Sink {
    var output: Text
    var outcomes: seq<bool>

    constructor (outcomes: seq<bool>)
      ensures output == [] && this.outcomes == outcomes
    {
      output := [];
      this.outcomes := outcomes;
    }

    method Write(p: Text) returns (ok: bool)
      modifies this
      ensures ok == !Streaming.NextWriteFails(old(outcomes))
      ensures outcomes == Streaming.AfterWrite(old(outcomes))
      ensures output == if ok then old(output) + p else old(output)
    {
      ok := outcomes == [] || outcomes[0];
      outcomes := if outcomes == [] then [] else outcomes[1..];
      if ok { output := output + p; }
    }
  }

  class Writer {
    const inner: Sink
    var secrets: seq<Text>
    var registered: set<Text>
    var pending: Text
    ghost var base: Text            // what inner held before this writer
    ghost var emitted: seq<Token>   // what this writer has sent since

    /** The list and the set of secrets agree; none is empty or listed twice. */
    ghost predicate ListMatchesSet()
      reads `secrets, `registered
    {
      && registered == (set t | t in secrets)
      && NoDuplicates(secrets)
      && [] !in registered
    }

    ghost predicate Valid()
      reads this, inner
    {
      ListMatchesSet() && inner.output == base + Render(emitted)
    }

    ghost function Model(): Streaming.Stream
      reads this, inner
    {
      Streaming.Stream(registered, pending, emitted, inner.outcomes)
    }

    constructor (inner: Sink, sensitive: seq<Text>)
      ensures Valid() && this.inner == inner
      ensures Model() == Streaming.Stream(Streaming.NonEmpty(sensitive), [], [], inner.outcomes)
    {
      this.inner := inner;
      secrets := [];
      registered := {};
      pending := [];
      base := inner.output;
      emitted := [];
      new;
      AddSecrets(sensitive);
    }

    method AddSecrets(sensitive: seq<Text>)
      requires Valid()
      modifies this
      ensures Valid() && base == old(base)
      ensures Model() == Streaming.Apply(old(Model()), Streaming.AddSecrets(sensitive))
    {
      for i := 0 to |sensitive|
        invariant Valid() && base == old(base) && pending == old(pending) && emitted == old(emitted)
        invariant registered == old(registered) + Streaming.NonEmpty(sensitive[..i])
      {
        var s := sensitive[i];
        assert sensitive[..i + 1] == sensitive[..i] + [s];
        if |s| > 0 && s !in registered {
          secrets := secrets + [s];
          registered := registered + {s};
        }
      }
      assert sensitive[..|sensitive|] == sensitive;
    }

    method Write(p: Text) returns (n: nat, ok: bool)
      requires Valid()
      modifies this, inner
      ensures Valid() && base == old(base)
      ensures Model() == Streaming.Apply(old(Model()), Streaming.Write(p))
      ensures ok == Streaming.Pass(old(Model()), p, false).ok
      ensures n == if ok then |p| else 0
    {
      pending := pending + p;
      ok := DrainPending(false);
      n := if ok then |p| else 0;
    }

    method Close() returns (ok: bool)
      requires Valid()
      modifies this, inner
      ensures Valid() && base == old(base)
      ensures Model() == Streaming.Apply(old(Model()), Streaming.Close)
      ensures ok == Streaming.Pass(old(Model()), [], true).ok
    {
      assert pending + [] == pending;
      ok := DrainPending(true);
    }

    method DrainPending(flush: bool) returns (ok: bool)
      requires Valid()
      modifies `pending, `emitted, inner
      ensures Valid()
      ensures var d := Streaming.Drain(registered, old(pending), flush, old(inner.outcomes));
        && ok == d.ok && pending == d.rest && inner.outcomes == d.outcomes
        && emitted == old(emitted) + d.tokens
    {
      ghost var goal := Streaming.Drain(registered, pending, flush, inner.outcomes);
      goal := goal.(tokens := emitted + goal.tokens);
      while |pending| > 0
        invariant inner.output == base + Render(emitted)
        invariant Leads(emitted, registered, pending, flush, inner.outcomes, goal)
        decreases |pending|
      {
        if !flush {
          var grow := CouldGrowIntoSecret(pending);
          if grow { return true; }
        }
        var n := LongestMatchAtStart(pending);
        ghost var t := OneMore(emitted, registered, pending, flush, inner.outcomes, goal, n, base);
        var wrote := inner.Write(if n > 0 then MARKER else pending[..1]);
        if !wrote { return false; }
        emitted := emitted + [t];
        pending := pending[if n > 0 then n else 1..];
      }
      return true;
    }

    /** Whether buf is a proper prefix of some registered secret. */
    method CouldGrowIntoSecret(buf: Text) returns (r: bool)
      requires ListMatchesSet()
      ensures r == CouldGrow(registered, buf)
      ensures r <==> exists t :: t in registered && buf < t
    {
      for i := 0 to |secrets|
        invariant forall k :: 0 <= k < i ==> !(buf < secrets[k])
      {
        if |secrets[i]| > |buf| && buf <= secrets[i] {
          assert secrets[i] in registered && buf < secrets[i];
          return true;
        }
      }
      return false;
    }

    /** The length of the longest registered secret at the start of buf, or 0. */
    method LongestMatchAtStart(buf: Text) returns (best: nat)
      requires ListMatchesSet()
      ensures best == LongestMatch(registered, buf)
      ensures best <= |buf| && (best > 0 ==> buf[..best] in registered)
      ensures forall t :: t in registered && t <= buf ==> |t| <= best
    {
      best := 0;
      for i := 0 to |secrets|
        invariant best <= |buf|
        invariant best > 0 ==> buf[..best] in registered
        invariant forall k :: 0 <= k < i && secrets[k] <= buf ==> |secrets[k]| <= best
      {
        if |secrets[i]| > best && secrets[i] <= buf {
          best := |secrets[i]|;
          assert buf[..best] == secrets[i];
        }
      }
      forall m | best < m <= |buf| ensures buf[..m] !in registered {
        assert buf[..m] <= buf;
      }
    }
  }

  /** With emitted already out, the rest of the pass leads to goal. */
  ghost predicate Leads(emitted: seq<Token>, secrets: set<Text>, pending: Text, flush: bool, outcomes: seq<bool>,
                        goal: Streaming.Drained)
  {
    var d := Streaming.Drain(secrets, pending, flush, outcomes);
    goal == d.(tokens := emitted + d.tokens)
  }

  /** One turn of the loop: the chunk it writes and the bytes it drops are those of the next token. */
  lemma OneMore(emitted: seq<Token>, secrets: set<Text>, pending: Text, flush: bool, outcomes: seq<bool>,
                goal: Streaming.Drained, n: nat, base: Text) returns (t: Token)
    requires Leads(emitted, secrets, pending, flush, outcomes, goal)
    requires pending != [] && (flush || !CouldGrow(secrets, pending)) && n == LongestMatch(secrets, pending)
    ensures n <= |pending|
    ensures base + Render(emitted + [t]) == base + Render(emitted) + if n > 0 then MARKER else pending[..1]
    ensures var after := Streaming.AfterWrite(outcomes);
      if Streaming.NextWriteFails(outcomes) then goal == Streaming.Drained(emitted, pending, after, false)
      else Leads(emitted + [t], secrets, pending[if n > 0 then n else 1..], flush, after, goal)
  {
    t := FirstToken(secrets, pending);
    RenderSnoc(base, emitted, t);
    if !Streaming.NextWriteFails(outcomes) {
      var _, d := Streaming.DrainStep(secrets, pending, flush, outcomes);
      ConcatAssociates(emitted, [t], d.tokens);
    }
  }

  lemma RenderSnoc(base: Text, emitted: seq<Token>, t: Token)
    ensures base + Render(emitted + [t]) == base + Render(emitted) + Shown(t)
  {
    RenderConcat(emitted, [t]);
    assert [t][1..] == [];
    ConcatAssociates(base, Render(emitted), Shown(t));
  }
}
