/** What redaction means: the text is cut, from the left, into masked secrets
    (always the longest registered one) and verbatim bytes. */
module Redaction {
  import opened Common

  /** "*** redacted ***" */
  const MARKER: Text := [42, 42, 42, 32, 114, 101, 100, 97, 99, 116, 101, 100, 32, 42, 42, 42]

  datatype Token = Verbatim(b: byte) | Masked(secret: Text)

  /** The length of the longest secret that starts s, looking only at lengths up to k. */
  function LongestMatchUpTo(secrets: set<Text>, s: Text, k: nat): (n: nat)
    requires k <= |s|
    ensures n <= k
    ensures n > 0 ==> s[..n] in secrets
    ensures forall m :: n < m <= k ==> s[..m] !in secrets
  {
    if k == 0 then 0
    else if s[..k] in secrets then k
    else LongestMatchUpTo(secrets, s, k - 1)
  }

  function LongestMatch(secrets: set<Text>, s: Text): nat {
    LongestMatchUpTo(secrets, s, |s|)
  }

  predicate CouldGrow(secrets: set<Text>, buf: Text) {
    exists t :: t in secrets && buf < t
  }

  function FirstToken(secrets: set<Text>, s: Text): (t: Token)
    requires s != []
    ensures 0 < Width(t) <= |s|
    ensures Original(t) == s[..Width(t)]
  {
    var n := LongestMatch(secrets, s);
    if n > 0 then Masked(s[..n]) else Verbatim(s[0])
  }

  function Tokens(secrets: set<Text>, s: Text): seq<Token>
    decreases |s|
  {
    if s == [] then [] else
    var t := FirstToken(secrets, s);
    [t] + Tokens(secrets, s[Width(t)..])
  }

  function Original(t: Token): Text {
    match t case Verbatim(b) => [b] case Masked(secret) => secret
  }

  function Shown(t: Token): Text {
    match t case Verbatim(b) => [b] case Masked(_) => MARKER
  }

  function Width(t: Token): nat { |Original(t)| }

  /** The bytes the tokens stand for: every marker replaced by the secret behind it. */
  function Source(tokens: seq<Token>): Text {
    if tokens == [] then [] else Original(tokens[0]) + Source(tokens[1..])
  }

  /** The bytes a reader of the output sees. */
  function Render(tokens: seq<Token>): Text {
    if tokens == [] then [] else Shown(tokens[0]) + Render(tokens[1..])
  }

  function Redact(secrets: set<Text>, s: Text): Text { Render(Tokens(secrets, s)) }

  lemma {:induction false} SourceConcat(a: seq<Token>, b: seq<Token>)
    ensures Source(a + b) == Source(a) + Source(b)
  {
    if a == [] {
      assert a + b == b;
    } else {
      SourceConcat(a[1..], b);
      DropOfConcat(a, b, 1);
      ConcatAssociates(Original(a[0]), Source(a[1..]), Source(b));
    }
  }

  lemma {:induction false} RenderConcat(a: seq<Token>, b: seq<Token>)
    ensures Render(a + b) == Render(a) + Render(b)
  {
    if a == [] {
      assert a + b == b;
    } else {
      RenderConcat(a[1..], b);
      DropOfConcat(a, b, 1);
      ConcatAssociates(Shown(a[0]), Render(a[1..]), Render(b));
    }
  }

  // ---------------------------------------------------------------- the reference

  /** Leftmost-longest replacement, said without an algorithm: each token stands
      for the bytes at its place, a masked one for a registered secret that no
      longer secret extends, a verbatim one only where no secret begins. */
  ghost predicate LeftmostLongest(secrets: set<Text>, tokens: seq<Token>, s: Text) {
    && Source(tokens) == s
    && forall k :: 0 <= k < |tokens| ==> Faithful(secrets, tokens[k], Source(tokens[k..]))
  }

  ghost predicate Faithful(secrets: set<Text>, t: Token, here: Text) {
    match t
    case Masked(secret) =>
      secret != [] && secret in secrets && forall u :: u in secrets && u <= here ==> |u| <= |secret|
    case Verbatim(_) =>
      forall u :: u in secrets && u <= here ==> u == []
  }

  /** Tokens computes the leftmost-longest replacement, and there is no other. */
  lemma TokensAreTheLeftmostLongest(secrets: set<Text>, tokens: seq<Token>, s: Text)
    ensures LeftmostLongest(secrets, tokens, s) <==> tokens == Tokens(secrets, s)
  {
    TokensAreFaithful(secrets, s);
    if LeftmostLongest(secrets, tokens, s) { NoOtherTokens(secrets, tokens, s); }
  }

  lemma {:induction false} SourceOfTokens(secrets: set<Text>, s: Text)
    ensures Source(Tokens(secrets, s)) == s
    decreases |s|
  {
    if s != [] {
      var w := Width(FirstToken(secrets, s));
      SourceOfTokens(secrets, s[w..]);
      TakeAndDrop(s, w);
    }
  }

  lemma {:induction false} TokensAreFaithful(secrets: set<Text>, s: Text)
    ensures LeftmostLongest(secrets, Tokens(secrets, s), s)
    decreases |s|
  {
    SourceOfTokens(secrets, s);
    if s != [] {
      var t := FirstToken(secrets, s);
      var tokens, tail := Tokens(secrets, s), Tokens(secrets, s[Width(t)..]);
      TokensAreFaithful(secrets, s[Width(t)..]);
      FirstTokenIsForced(secrets, t, s);
      forall k | 0 <= k < |tokens| ensures Faithful(secrets, tokens[k], Source(tokens[k..])) {
        if k == 0 {
          assert tokens[0..] == tokens;
        } else {
          assert tokens[k] == tail[k - 1] && tokens[k..] == tail[k - 1..];
        }
      }
    }
  }

  lemma {:induction false} NoOtherTokens(secrets: set<Text>, tokens: seq<Token>, s: Text)
    requires LeftmostLongest(secrets, tokens, s)
    ensures tokens == Tokens(secrets, s)
    decreases |tokens|
  {
    if tokens != [] {
      var t, rest := tokens[0], Source(tokens[1..]);
      assert tokens[0..] == tokens;
      assert Faithful(secrets, t, s) && s == Original(t) + rest;
      assert Original(t) != [];
      FirstTokenIsForced(secrets, t, s);
      forall k | 0 <= k < |tokens[1..]| ensures Faithful(secrets, tokens[1..][k], Source(tokens[1..][k..])) {
        assert tokens[1..][k] == tokens[k + 1] && tokens[1..][k..] == tokens[k + 1..];
      }
      NoOtherTokens(secrets, tokens[1..], rest);
      assert s[Width(t)..] == rest;
      assert tokens == [t] + tokens[1..];
    }
  }

  lemma FirstTokenIsForced(secrets: set<Text>, t: Token, s: Text)
    requires s != []
    ensures Faithful(secrets, t, s) && Original(t) <= s <==> t == FirstToken(secrets, s)
  {
    var n := LongestMatch(secrets, s);
    assert n > 0 ==> s[..n] <= s;
    forall u | u in secrets && u <= s ensures |u| <= n {
      assert u == s[..|u|];
    }
  }

  // ---------------------------------------------------------------- what a reader can see

  lemma MarkerText()
    ensures |MARKER| == |"*** redacted ***"|
    ensures forall k :: 0 <= k < |MARKER| ==> MARKER[k] as int == "*** redacted ***"[k] as int
  {
  }

  /** Text in which no registered secret occurs passes unchanged; a secret by itself
      becomes the marker. */
  lemma {:induction false} OnlySecretsAreMasked(secrets: set<Text>, s: Text)
    requires forall i, u :: 0 <= i < |s| && u in secrets && u != [] ==> !(u <= s[i..])
    ensures Redact(secrets, s) == s
    decreases |s|
  {
    if s != [] {
      assert s[0..] == s;
      FirstTokenIsForced(secrets, Verbatim(s[0]), s);
      forall i, u | 0 <= i < |s[1..]| && u in secrets && u != [] ensures !(u <= s[1..][i..]) {
        DropTwice(s, 1, i + 1);
      }
      OnlySecretsAreMasked(secrets, s[1..]);
    }
  }

  lemma SecretBecomesMarker(secrets: set<Text>, u: Text)
    requires u in secrets && u != []
    ensures Redact(secrets, u) == MARKER
  {
    forall v | v in secrets && v <= u ensures |v| <= |u| {
    }
    FirstTokenIsForced(secrets, Masked(u), u);
    assert FirstToken(secrets, u) == Masked(u);
    var rest := u[Width(Masked(u))..];
    assert rest == [] && Tokens(secrets, rest) == [];
    var tokens := Tokens(secrets, u);
    assert tokens == [Masked(u)] + Tokens(secrets, rest);
    assert tokens[1..] == [];
    assert Render(tokens) == Shown(tokens[0]) + Render(tokens[1..]);
  }

  /** Where token k of a token list starts in the text it stands for. */
  function Offset(tokens: seq<Token>, k: nat): nat
    requires k <= |tokens|
  {
    |Source(tokens[..k])|
  }

  /** Token k covers position i. */
  predicate Covers(tokens: seq<Token>, k: nat, i: nat) {
    k < |tokens| && Offset(tokens, k) <= i < Offset(tokens, k + 1)
  }

  /** A secret found at position i starts inside a masked token. */
  lemma {:induction false} OccurrencesStartMasked(secrets: set<Text>, s: Text, i: nat, u: Text) returns (k: nat)
    requires u in secrets && u != [] && i <= |s| && u <= s[i..]
    ensures Covers(Tokens(secrets, s), k, i) && Tokens(secrets, s)[k].Masked?
    decreases |s|
  {
    var t := FirstToken(secrets, s);
    var rest := s[Width(t)..];
    if i < Width(t) {
      k := 0;
      CoversFront(t, Tokens(secrets, rest), i);
      if i == 0 {
        assert s[i..] == s;
        SecretAtFrontIsMasked(secrets, s, u);
      }
    } else {
      DropTwice(s, Width(t), i);
      var j := OccurrencesStartMasked(secrets, rest, i - Width(t), u);
      k := j + 1;
      CoversLater(t, Tokens(secrets, rest), j, i - Width(t));
    }
  }

  lemma DropTwice(s: Text, w: nat, i: nat)
    requires w <= i <= |s|
    ensures s[w..][i - w..] == s[i..]
  {
  }

  lemma CoversFront(t: Token, tail: seq<Token>, i: nat)
    requires i < Width(t)
    ensures Covers([t] + tail, 0, i)
  {
    OffsetLater(t, tail, 0);
  }

  lemma CoversLater(t: Token, tail: seq<Token>, j: nat, i: nat)
    requires Covers(tail, j, i)
    ensures Covers([t] + tail, j + 1, i + Width(t)) && ([t] + tail)[j + 1] == tail[j]
  {
    OffsetLater(t, tail, j);
    OffsetLater(t, tail, j + 1);
  }

  lemma OffsetLater(t: Token, tail: seq<Token>, j: nat)
    requires j <= |tail|
    ensures Offset([t] + tail, j + 1) == Width(t) + Offset(tail, j)
  {
    var front := ([t] + tail)[..j + 1];
    assert front[0] == t && front[1..] == tail[..j];
  }

  lemma SecretAtFrontIsMasked(secrets: set<Text>, s: Text, u: Text)
    requires u in secrets && u != [] && u <= s
    ensures FirstToken(secrets, s).Masked?
  {
    assert u == s[..|u|];
  }

  /** A run of output copied from the input contains no whole secret. */
  lemma NoSecretInVerbatimRun(secrets: set<Text>, s: Text, from: nat, to: nat, u: Text, i: nat)
    requires from <= to <= |Tokens(secrets, s)|
    requires forall k :: from <= k < to ==> Tokens(secrets, s)[k].Verbatim?
    requires u in secrets && u != []
    requires i + |u| <= |Render(Tokens(secrets, s)[from..to])|
    ensures Render(Tokens(secrets, s)[from..to])[i..i + |u|] != u
  {
    var tokens := Tokens(secrets, s);
    VerbatimRendersItself(tokens[from..to]);
    if Source(tokens[from..to])[i..i + |u|] == u {
      SourceOfTokens(secrets, s);
      RunIsInText(tokens, from, to, u, i);
      var k := OccurrencesStartMasked(secrets, s, Offset(tokens, from) + i, u);
      CoveredInRun(tokens, k, from, to, Offset(tokens, from) + i);
    }
  }

  lemma RunIsInText(tokens: seq<Token>, from: nat, to: nat, u: Text, i: nat)
    requires from <= to <= |tokens| && u != []
    requires i + |u| <= |Source(tokens[from..to])| && Source(tokens[from..to])[i..i + |u|] == u
    ensures Offset(tokens, from) + i < Offset(tokens, to) && Offset(tokens, from) + i <= |Source(tokens)|
    ensures u <= Source(tokens)[Offset(tokens, from) + i..]
  {
    SourceSplit(tokens, to);
    SourceRange(tokens, from, to);
    Inside(Source(tokens[..from]), Source(tokens[from..to]), Source(tokens[to..]), i, u);
  }

  lemma Inside(a: Text, b: Text, c: Text, i: nat, u: Text)
    requires i + |u| <= |b| && b[i..i + |u|] == u
    ensures |a| + i <= |a + b + c| && u <= (a + b + c)[|a| + i..]
  {
    var tail := (a + b + c)[|a| + i..];
    forall k | 0 <= k < |u| ensures tail[k] == u[k] {
      assert b[i..i + |u|][k] == b[i + k];
    }
  }

  lemma CoveredInRun(tokens: seq<Token>, k: nat, from: nat, to: nat, at: nat)
    requires Covers(tokens, k, at) && from <= to <= |tokens|
    requires Offset(tokens, from) <= at < Offset(tokens, to)
    ensures from <= k < to
  {
    if k < from {
      SourceRange(tokens, k + 1, from);
    } else if to <= k {
      SourceRange(tokens, to, k);
    }
  }

  lemma SourceSplit(tokens: seq<Token>, k: nat)
    requires k <= |tokens|
    ensures Source(tokens) == Source(tokens[..k]) + Source(tokens[k..])
  {
    var front, back := tokens[..k], tokens[k..];
    TakeAndDrop(tokens, k);
    SourceConcat(front, back);
  }

  /** The tokens from..to stand for what follows the text of those before them. */
  lemma SourceRange(tokens: seq<Token>, from: nat, to: nat)
    requires from <= to <= |tokens|
    ensures Source(tokens[..to]) == Source(tokens[..from]) + Source(tokens[from..to])
    ensures Offset(tokens, from) <= Offset(tokens, to)
  {
    SourceSplit(tokens[..to], from);
    assert tokens[..to][..from] == tokens[..from];
  }

  lemma {:induction false} VerbatimRendersItself(tokens: seq<Token>)
    requires forall k :: 0 <= k < |tokens| ==> tokens[k].Verbatim?
    ensures Render(tokens) == Source(tokens)
  {
    if tokens != [] { VerbatimRendersItself(tokens[1..]); }
  }
}
