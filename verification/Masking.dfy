/** What extraction and redaction promise together. */
module Masking {
  import opened Common
  import opened Redaction
  import YamlTree
  import Extraction
  import Streaming

  /** What is out after registering list, writing ops and closing. */
  ghost function OutputFrom(st: Streaming.Stream, list: seq<Text>, ops: seq<Streaming.Op>): seq<Token> {
    Streaming.Run(Streaming.Apply(st, Streaming.AddSecrets(list)), ops + [Streaming.Close]).emitted
  }

  /** Once a secret is registered, every occurrence of it in the bytes still held back
      and those written later starts inside a marker of the output, however the writes
      are cut. */
  lemma RegisteredSecretsAreMasked(st: Streaming.Stream, list: seq<Text>, ops: seq<Streaming.Op>, u: Text, i: nat)
    returns (k: nat)
    requires Streaming.OnlyWrites(ops) && Streaming.NoFailuresAhead(st)
    requires u in list && u != []
    requires i <= |st.pending + Streaming.Appended(ops)| && u <= (st.pending + Streaming.Appended(ops))[i..]
    ensures var later := Tokens(st.secrets + Streaming.NonEmpty(list), st.pending + Streaming.Appended(ops));
      && OutputFrom(st, list, ops) == st.emitted + later
      && Covers(later, k, i) && later[k].Masked?
  {
    var registered := Streaming.Apply(st, Streaming.AddSecrets(list));
    Streaming.EventualOutput(registered, ops);
    k := OccurrencesStartMasked(registered.secrets, registered.pending + Streaming.Appended(ops), i, u);
  }

  /** The plaintext of an encrypted or referenced leaf, extracted from any pair of
      documents and registered, is masked wherever later output contains it. */
  lemma DecryptedLeavesAreMasked(
      before: Extraction.Input, after: Extraction.Input, pred: Text -> bool, orders: seq<seq<YamlTree.Path>>,
      d: nat, p: YamlTree.Path, u: Text, st: Streaming.Stream, ops: seq<Streaming.Op>, i: nat)
    returns (k: nat)
    requires Extraction.AreOrders(orders, before, after, pred)
    requires Extraction.Leads(before, after, pred, u, d, p) && u != []
    requires Streaming.OnlyWrites(ops) && Streaming.NoFailuresAhead(st)
    requires i <= |st.pending + Streaming.Appended(ops)| && u <= (st.pending + Streaming.Appended(ops))[i..]
    ensures var list := Extraction.SecretsOf(orders, after.docs);
      var later := Tokens(st.secrets + Streaming.NonEmpty(list), st.pending + Streaming.Appended(ops));
      && OutputFrom(st, list, ops) == st.emitted + later
      && Covers(later, k, i) && later[k].Masked?
  {
    Extraction.ExtractedExactly(orders, before, after, pred, u);
    k := RegisteredSecretsAreMasked(st, Extraction.SecretsOf(orders, after.docs), ops, u, i);
  }
}
