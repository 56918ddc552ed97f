/** A key-value cache that quantises the settled part of each layer's first update, once and in place. */
module KvCache {
  import opened Blocks
  import opened GroupQuantizer
  import opened SettledBlocks

  datatype Entry = Entry(layer: nat, k: seq<Token>, v: seq<Token>)

  ghost predicate ValidEntry(e: Entry, dim: nat) {
    |e.k| == |e.v| && IsBlock(e.k, dim) && IsBlock(e.v, dim)
  }

  ghost predicate ValidLog(log: seq<Entry>, dim: nat) {
    forall i :: 0 <= i < |log| ==> ValidEntry(log[i], dim)
  }

  // ------------------------------------------------------------------ what a layer should hold

  /** The first chunk with all but its last hot tokens quantised. */
  function SettledKeys(x: seq<Token>, dim: nat, c: Config): (y: seq<Token>)
    requires ValidConfig(c) && IsBlock(x, dim)
    ensures |y| == |x| && IsBlock(y, dim)
  {
    if |x| <= c.hot || c.preRope then x else KeyBlock(x[..|x| - c.hot], dim, c) + x[|x| - c.hot..]
  }

  function SettledValues(x: seq<Token>, dim: nat, c: Config): (y: seq<Token>)
    requires ValidConfig(c) && IsBlock(x, dim)
    ensures |y| == |x| && IsBlock(y, dim)
  {
    if |x| <= c.hot then x else ValueBlock(x[..|x| - c.hot], dim, c) + x[|x| - c.hot..]
  }

  function KeyChunks(log: seq<Entry>, layer: nat): seq<seq<Token>> {
    if |log| == 0 then [] else
      var e := log[|log| - 1];
      var before := KeyChunks(log[..|log| - 1], layer);
      if e.layer == layer then before + [e.k] else before
  }

  function ValueChunks(log: seq<Entry>, layer: nat): seq<seq<Token>> {
    if |log| == 0 then [] else
      var e := log[|log| - 1];
      var before := ValueChunks(log[..|log| - 1], layer);
      if e.layer == layer then before + [e.v] else before
  }

  ghost predicate AreBlocks(chunks: seq<seq<Token>>, dim: nat) {
    forall i :: 0 <= i < |chunks| ==> IsBlock(chunks[i], dim)
  }

  lemma {:induction false} ChunksAreBlocks(log: seq<Entry>, layer: nat, dim: nat)
    requires ValidLog(log, dim)
    ensures AreBlocks(KeyChunks(log, layer), dim) && AreBlocks(ValueChunks(log, layer), dim)
    ensures |KeyChunks(log, layer)| == |ValueChunks(log, layer)|
    ensures |Flatten(KeyChunks(log, layer))| == |Flatten(ValueChunks(log, layer))|
  {
    if |log| == 0 {
    } else {
      ChunksAreBlocks(log[..|log| - 1], layer, dim);
      var e := log[|log| - 1];
      assert ValidEntry(e, dim);
      FlattenLast(KeyChunks(log[..|log| - 1], layer), e.k);
      FlattenLast(ValueChunks(log[..|log| - 1], layer), e.v);
    }
  }

  /** The first chunk settled, every later one as it came. */
  function StoredKeys(chunks: seq<seq<Token>>, dim: nat, c: Config): seq<Token>
    requires ValidConfig(c) && AreBlocks(chunks, dim)
  {
    if |chunks| == 0 then [] else SettledKeys(chunks[0], dim, c) + Flatten(chunks[1..])
  }

  function StoredValues(chunks: seq<seq<Token>>, dim: nat, c: Config): seq<Token>
    requires ValidConfig(c) && AreBlocks(chunks, dim)
  {
    if |chunks| == 0 then [] else SettledValues(chunks[0], dim, c) + Flatten(chunks[1..])
  }

  lemma StoredGrows(chunks: seq<seq<Token>>, x: seq<Token>, dim: nat, c: Config)
    requires ValidConfig(c) && AreBlocks(chunks + [x], dim)
    ensures AreBlocks(chunks, dim) && IsBlock(x, dim)
    ensures StoredKeys(chunks + [x], dim, c) ==
            if |chunks| == 0 then SettledKeys(x, dim, c) else StoredKeys(chunks, dim, c) + x
    ensures StoredValues(chunks + [x], dim, c) ==
            if |chunks| == 0 then SettledValues(x, dim, c) else StoredValues(chunks, dim, c) + x
  {
    var all := chunks + [x];
    assert forall i :: 0 <= i < |chunks| ==> all[i] == chunks[i];
    assert all[|chunks|] == x;
    if |chunks| > 0 {
      var first, rest := chunks[0], chunks[1..];
      assert all[1..] == rest + [x];
      FlattenLast(rest, x);
      Associative(SettledKeys(first, dim, c), Flatten(rest), x);
      Associative(SettledValues(first, dim, c), Flatten(rest), x);
    }
  }

  /** The quantised region persists: later updates only append, the raw tokens they came with. */
  lemma SettledOnce(chunks: seq<seq<Token>>, more: seq<seq<Token>>, dim: nat, c: Config)
    requires ValidConfig(c) && AreBlocks(chunks + more, dim) && |chunks| > 0
    ensures AreBlocks(chunks, dim)
    ensures StoredKeys(chunks + more, dim, c) == StoredKeys(chunks, dim, c) + Flatten(more)
    ensures StoredValues(chunks + more, dim, c) == StoredValues(chunks, dim, c) + Flatten(more)
  {
    var first, rest := chunks[0], chunks[1..];
    assert forall i :: 0 <= i < |chunks| ==> (chunks + more)[i] == chunks[i];
    assert (chunks + more)[1..] == rest + more;
    FlattenConcat(rest, more);
    Associative(SettledKeys(first, dim, c), Flatten(rest), Flatten(more));
    Associative(SettledValues(first, dim, c), Flatten(rest), Flatten(more));
  }

  lemma {:induction false} FlattenIsBlock(chunks: seq<seq<Token>>, dim: nat)
    requires AreBlocks(chunks, dim)
    ensures IsBlock(Flatten(chunks), dim)
  {
    if |chunks| == 0 {
    } else {
      FlattenIsBlock(chunks[..|chunks| - 1], dim);
    }
  }

  /** Settled: quantised, that is, in the first chunk and not among its last hot tokens. */
  predicate IsSettled(chunks: seq<seq<Token>>, c: Config, i: nat) {
    |chunks| > 0 && i + c.hot < |chunks[0]|
  }

  function SettledChannel(chunks: seq<seq<Token>>, dim: nat, c: Config, d: nat): (ch: seq<real>)
    requires AreBlocks(chunks, dim) && IsSettled(chunks, c, 0) && d < dim
    ensures |ch| == |chunks[0]| - c.hot
  {
    Channel(chunks[0][..|chunks[0]| - c.hot], dim, d)
  }

  /** Every stored key is the raw key, except that settled ones are coded in their group unless kept. */
  lemma StoredKeysAreCoded(chunks: seq<seq<Token>>, dim: nat, c: Config, i: nat, d: nat)
    requires ValidConfig(c) && AreBlocks(chunks, dim) && d < dim && i < |Flatten(chunks)|
    ensures IsBlock(Flatten(chunks), dim)
    ensures |StoredKeys(chunks, dim, c)| == |Flatten(chunks)|
    ensures c.preRope || !IsSettled(chunks, c, i) ==> StoredKeys(chunks, dim, c)[i] == Flatten(chunks)[i]
    ensures !c.preRope && IsSettled(chunks, c, i) ==>
      && |StoredKeys(chunks, dim, c)[i]| == dim
      && SettledChannel(chunks, dim, c, d)[i] == Flatten(chunks)[i][d]
      && IsKeyCoded(StoredKeys(chunks, dim, c)[i][d], SettledChannel(chunks, dim, c, d), c, i)
  {
    FlattenIsBlock(chunks, dim);
    if |chunks| > 0 {
      StoredKeyAt(chunks, dim, c, i);
      if !c.preRope && IsSettled(chunks, c, i) {
        var settled, y := chunks[0][..|chunks[0]| - c.hot], StoredKeys(chunks, dim, c)[i];
        KeyIsCoded(settled, dim, c, i, d, y, SettledChannel(chunks, dim, c, d));
      }
    }
  }

  /** Where stored key i comes from: the raw keys, or the settled block of the first chunk. */
  lemma StoredKeyAt(chunks: seq<seq<Token>>, dim: nat, c: Config, i: nat)
    requires ValidConfig(c) && AreBlocks(chunks, dim) && |chunks| > 0 && i < |Flatten(chunks)|
    ensures |StoredKeys(chunks, dim, c)| == |Flatten(chunks)|
    ensures c.preRope || !IsSettled(chunks, c, i) ==> StoredKeys(chunks, dim, c)[i] == Flatten(chunks)[i]
    ensures !c.preRope && IsSettled(chunks, c, i) ==>
      && Flatten(chunks)[i] == chunks[0][i]
      && StoredKeys(chunks, dim, c)[i] == KeyBlock(chunks[0][..|chunks[0]| - c.hot], dim, c)[i]
  {
    FlattenFirst(chunks);
    ConcatAt(SettledKeys(chunks[0], dim, c), Flatten(chunks[1..]), i);
    ConcatAt(chunks[0], Flatten(chunks[1..]), i);
    if i < |chunks[0]| {
      SettledKeyAt(chunks[0], dim, c, i);
    }
  }

  /** Token i of the first chunk after settling its keys: raw, or from the settled block. */
  lemma SettledKeyAt(x: seq<Token>, dim: nat, c: Config, i: nat)
    requires ValidConfig(c) && IsBlock(x, dim) && i < |x|
    ensures c.preRope || i + c.hot >= |x| ==> SettledKeys(x, dim, c)[i] == x[i]
    ensures !c.preRope && i + c.hot < |x| ==> SettledKeys(x, dim, c)[i] == KeyBlock(x[..|x| - c.hot], dim, c)[i]
  {
    if !c.preRope && c.hot < |x| {
      FrontReplaced(KeyBlock(x[..|x| - c.hot], dim, c), x, SettledKeys(x, dim, c), i);
    }
  }

  lemma FrontReplaced(front: seq<Token>, x: seq<Token>, y: seq<Token>, i: nat)
    requires |front| <= |x| && y == front + x[|front|..] && i < |x|
    ensures y[i] == if i < |front| then front[i] else x[i]
  {}

  lemma KeyIsCoded(settled: seq<Token>, dim: nat, c: Config, i: nat, d: nat, y: Token, ch: seq<real>)
    requires ValidConfig(c) && IsBlock(settled, dim) && d < dim && i < |settled|
    requires y == KeyBlock(settled, dim, c)[i] && ch == Channel(settled, dim, d)
    ensures |y| == dim && ch[i] == settled[i][d] && IsKeyCoded(y[d], ch, c, i)
  {
    KeyChannelIsCoded(ch, c, i);
  }

  /** Every stored value is the raw value, except that settled ones are coded in their token. */
  lemma StoredValuesAreCoded(chunks: seq<seq<Token>>, dim: nat, c: Config, i: nat, d: nat)
    requires ValidConfig(c) && AreBlocks(chunks, dim) && d < dim && i < |Flatten(chunks)|
    ensures IsBlock(Flatten(chunks), dim)
    ensures |StoredValues(chunks, dim, c)| == |Flatten(chunks)|
    ensures !IsSettled(chunks, c, i) ==> StoredValues(chunks, dim, c)[i] == Flatten(chunks)[i]
    ensures IsSettled(chunks, c, i) ==>
      && |StoredValues(chunks, dim, c)[i]| == dim
      && IsCoded(StoredValues(chunks, dim, c)[i][d], Flatten(chunks)[i][d], Flatten(chunks)[i], c.valueLevels)
  {
    FlattenIsBlock(chunks, dim);
    if |chunks| > 0 {
      StoredValueAt(chunks, dim, c, i);
      if IsSettled(chunks, c, i) {
        var settled := chunks[0][..|chunks[0]| - c.hot];
        ValueIsCoded(settled, dim, c, i, d, StoredValues(chunks, dim, c)[i], Flatten(chunks)[i]);
      }
    }
  }

  lemma StoredValueAt(chunks: seq<seq<Token>>, dim: nat, c: Config, i: nat)
    requires ValidConfig(c) && AreBlocks(chunks, dim) && |chunks| > 0 && i < |Flatten(chunks)|
    ensures |StoredValues(chunks, dim, c)| == |Flatten(chunks)|
    ensures !IsSettled(chunks, c, i) ==> StoredValues(chunks, dim, c)[i] == Flatten(chunks)[i]
    ensures IsSettled(chunks, c, i) ==>
      && Flatten(chunks)[i] == chunks[0][i]
      && StoredValues(chunks, dim, c)[i] == ValueBlock(chunks[0][..|chunks[0]| - c.hot], dim, c)[i]
  {
    FlattenFirst(chunks);
    var x, y := chunks[0], SettledValues(chunks[0], dim, c);
    ConcatAt(y, Flatten(chunks[1..]), i);
    ConcatAt(x, Flatten(chunks[1..]), i);
    if i < |x| && c.hot < |x| {
      FrontReplaced(ValueBlock(x[..|x| - c.hot], dim, c), x, y, i);
    }
  }

  lemma ValueIsCoded(settled: seq<Token>, dim: nat, c: Config, i: nat, d: nat, y: Token, t: Token)
    requires ValidConfig(c) && IsBlock(settled, dim) && d < dim && i < |settled|
    requires y == ValueBlock(settled, dim, c)[i] && t == settled[i]
    ensures |y| == |t| == dim && IsCoded(y[d], t[d], t, c.valueLevels)
  {
    ValueBlockIsNearest(settled, dim, c, i, d);
  }

  // ------------------------------------------------------------------ the cache

  /** Everything the cache should hold after the updates in log. */
  ghost predicate Holds(keys: map<nat, seq<Token>>, values: map<nat, seq<Token>>, done: set<nat>,
                        log: seq<Entry>, layer: nat, dim: nat, c: Config)
    requires ValidConfig(c) && ValidLog(log, dim)
  {
    ChunksAreBlocks(log, layer, dim);
    var ks, vs := KeyChunks(log, layer), ValueChunks(log, layer);
    if |ks| == 0 then layer !in keys && layer !in values && layer !in done
    else
      && layer in keys && layer in values && layer in done
      && keys[layer] == StoredKeys(ks, dim, c) && values[layer] == StoredValues(vs, dim, c)
  }

  /** Every layer holds what it should. */
  ghost predicate HoldsAll(keys: map<nat, seq<Token>>, values: map<nat, seq<Token>>, done: set<nat>,
                           log: seq<Entry>, dim: nat, c: Config)
    requires ValidConfig(c)
  {
    ValidLog(log, dim) && forall layer: nat :: Holds(keys, values, done, log, layer, dim, c)
  }

  lemma ChunksGrow(log: seq<Entry>, e: Entry, layer: nat)
    ensures KeyChunks(log + [e], layer) ==
            if e.layer == layer then KeyChunks(log, layer) + [e.k] else KeyChunks(log, layer)
    ensures ValueChunks(log + [e], layer) ==
            if e.layer == layer then ValueChunks(log, layer) + [e.v] else ValueChunks(log, layer)
  {
    assert (log + [e])[..|log|] == log;
  }

  /** An update of one layer gives it what it should hold and leaves the others alone. */
  lemma UpdateHolds(keys: map<nat, seq<Token>>, values: map<nat, seq<Token>>, done: set<nat>,
                     log: seq<Entry>, e: Entry, dim: nat, c: Config, fk: seq<Token>, fv: seq<Token>,
                     keys': map<nat, seq<Token>>, values': map<nat, seq<Token>>, done': set<nat>)
    requires ValidConfig(c) && ValidEntry(e, dim) && HoldsAll(keys, values, done, log, dim, c)
    requires e.layer in done ==> e.layer in keys && e.layer in values
    requires fk == if e.layer in done then keys[e.layer] + e.k else SettledKeys(e.k, dim, c)
    requires fv == if e.layer in done then values[e.layer] + e.v else SettledValues(e.v, dim, c)
    requires keys' == keys[e.layer := fk] && values' == values[e.layer := fv] && done' == done + {e.layer}
    ensures HoldsAll(keys', values', done', log + [e], dim, c)
  {
    assert ValidLog(log + [e], dim);
    forall layer: nat ensures Holds(keys', values', done', log + [e], layer, dim, c) {
      assert Holds(keys, values, done, log, layer, dim, c);
      if layer == e.layer {
        LayerGrows(keys, values, done, log, e, dim, c);
      } else {
        ChunksGrow(log, e, layer);
      }
    }
  }

  lemma LayerGrows(keys: map<nat, seq<Token>>, values: map<nat, seq<Token>>, done: set<nat>,
                   log: seq<Entry>, e: Entry, dim: nat, c: Config)
    requires ValidConfig(c) && ValidLog(log, dim) && ValidEntry(e, dim) && ValidLog(log + [e], dim)
    requires Holds(keys, values, done, log, e.layer, dim, c)
    ensures AreBlocks(KeyChunks(log + [e], e.layer), dim) && AreBlocks(ValueChunks(log + [e], e.layer), dim)
    ensures |KeyChunks(log + [e], e.layer)| > 0
    ensures StoredKeys(KeyChunks(log + [e], e.layer), dim, c) ==
            if e.layer in done then keys[e.layer] + e.k else SettledKeys(e.k, dim, c)
    ensures StoredValues(ValueChunks(log + [e], e.layer), dim, c) ==
            if e.layer in done then values[e.layer] + e.v else SettledValues(e.v, dim, c)
  {
    ChunksGrow(log, e, e.layer);
    ChunksAreBlocks(log, e.layer, dim);
    ChunksAreBlocks(log + [e], e.layer, dim);
    StoredGrows(KeyChunks(log, e.layer), e.k, dim, c);
    StoredGrows(ValueChunks(log, e.layer), e.v, dim, c);
  }

  /** Quantise all but the last hot tokens of the stored tensors. */
  method SettlePrefix(k: seq<Token>, v: seq<Token>, dim: nat, c: Config) returns (fk: seq<Token>, fv: seq<Token>)
    requires ValidConfig(c) && IsBlock(k, dim) && IsBlock(v, dim) && |k| == |v|
    ensures fk == SettledKeys(k, dim, c) && fv == SettledValues(v, dim, c)
  {
    fk, fv := k, v;
    var n := if |k| > c.hot then |k| - c.hot else 0;
    if n > 0 {
      if !c.preRope {
        fk := KeyBlock(fk[..n], dim, c) + fk[n..];
      }
      fv := ValueBlock(fv[..n], dim, c) + fv[n..];
    }
  }

  class Cache {
    const dim: nat
    const config: Config
    var keys: map<nat, seq<Token>>
    var values: map<nat, seq<Token>>
    var done: set<nat>
    ghost var log: seq<Entry>

    ghost predicate Valid()
      reads this
    {
      ValidConfig(config) && HoldsAll(keys, values, done, log, dim, config)
    }

    constructor (dim: nat, config: Config)
      requires ValidConfig(config)
      ensures Valid() && log == [] && this.dim == dim && this.config == config
    {
      this.dim, this.config := dim, config;
      keys, values, done, log := map[], map[], {}, [];
    }

    /** Append to a layer; the first time, quantise what has settled in the stored tensors themselves. */
    method Update(layer: nat, k: seq<Token>, v: seq<Token>) returns (fk: seq<Token>, fv: seq<Token>)
      requires Valid() && ValidEntry(Entry(layer, k, v), dim)
      modifies this
      ensures Valid() && log == old(log) + [Entry(layer, k, v)]
      ensures layer in keys && fk == keys[layer] && layer in values && fv == values[layer]
    {
      assert Holds(keys, values, done, log, layer, dim, config);
      fk := (if layer in keys then keys[layer] else []) + k;
      fv := (if layer in values then values[layer] else []) + v;
      if layer !in done {
        assert fk == k && fv == v;
        fk, fv := SettlePrefix(fk, fv, dim, config);
        done := done + {layer};
      }
      keys, values := keys[layer := fk], values[layer := fv];
      assert done == old(done) + {layer};
      UpdateHolds(old(keys), old(values), old(done), log, Entry(layer, k, v), dim, config, fk, fv, keys, values, done);
      log := log + [Entry(layer, k, v)];
    }
  }
}
