/** The result mappings the extractors return and the driver merges: a Python
    dict from field names to values, kept as its entries in insertion order. */
module Records {
  import opened Text

  datatype Option<T> = None | Some(value: T)

  /** What a library call gives back: a value, or the message of the
      exception it raised. */
  datatype Result<T> = Success(value: T) | Failure(error: string)

  /** A field value: text, a flag (program 10) or a count (program 2). */
  datatype Value = Str(text: string) | Flag(flag: bool) | Num(num: int)

  /** A dict as its entries in insertion order. */
  type Record = seq<(string, Value)>

  function Keys(d: Record): (ks: seq<string>)
    ensures |ks| == |d|
    ensures forall i :: 0 <= i < |d| ==> ks[i] == d[i].0
  {
    seq(|d|, i requires 0 <= i < |d| => d[i].0)
  }

  /** Every key occurs once, as in a Python dict. */
  predicate WellFormed(d: Record) {
    Distinct(Keys(d))
  }

  /** `d.get(k)`: the value of the first entry with key `k`. */
  function Lookup(d: Record, k: string): (r: Option<Value>)
    ensures r.Some? <==> k in Keys(d)
  {
    if k in Keys(d) then Some(d[IndexOf(Keys(d), k)].1) else None
  }

  /** `d[k] = v`: an existing key keeps its place and takes the new value,
      a new key is appended at the end. */
  function Put(d: Record, k: string, v: Value): Record {
    if k in Keys(d) then d[IndexOf(Keys(d), k) := (k, v)] else d + [(k, v)]
  }

  /** After `d[k] = v`, `k` maps to `v`, every other key keeps its value, the
      key order is unchanged except that a new key comes last, and no key
      occurs twice if none did before. */
  lemma PutFacts(d: Record, k: string, v: Value)
    ensures k in Keys(d) ==> Keys(Put(d, k, v)) == Keys(d)
    ensures k !in Keys(d) ==> Keys(Put(d, k, v)) == Keys(d) + [k]
    ensures WellFormed(d) ==> WellFormed(Put(d, k, v))
    ensures Lookup(Put(d, k, v), k) == Some(v)
    ensures forall k' :: k' != k ==> Lookup(Put(d, k, v), k') == Lookup(d, k')
  {
    var r := Put(d, k, v);
    if k in Keys(d) {
      assert Keys(r) == Keys(d);
    } else {
      assert Keys(r) == Keys(d) + [k];
      forall k' | k' in Keys(d) ensures IndexOf(Keys(r), k') == IndexOf(Keys(d), k') {
        IndexOfPrefix(Keys(r), Keys(d), k');
      }
      IndexOfLast(Keys(r), k);
    }
  }

  /** Putting an existing key replaces its entry in place. */
  lemma PutAt(d: Record, j: nat, k: string, v: Value)
    requires j < |d| && d[j].0 == k && forall i :: 0 <= i < j ==> d[i].0 != k
    ensures Put(d, k, v) == d[j := (k, v)]
  {
    assert k !in Keys(d)[..j];
    IndexOfUnique(Keys(d), k, j);
  }

  /** `d.update(e)`: the entries of `e` put into `d` one after another. */
  function Update(d: Record, e: Record): Record {
    if e == [] then d
    else Put(Update(d, e[..|e| - 1]), e[|e| - 1].0, e[|e| - 1].1)
  }

  /** After `d.update(e)`: the keys of `d` come first, in their order, then
      the new keys of `e`; a key of `e` maps to its value in `e`, any other
      key keeps its value in `d`. */
  lemma {:induction false} UpdateFacts(d: Record, e: Record)
    ensures WellFormed(d) ==> WellFormed(Update(d, e))
    ensures Keys(d) <= Keys(Update(d, e))
    ensures forall k :: k in Keys(Update(d, e)) <==> k in Keys(d) || k in Keys(e)
    ensures WellFormed(e) ==>
      forall k :: Lookup(Update(d, e), k) == if k in Keys(e) then Lookup(e, k) else Lookup(d, k)
  {
    if e != [] {
      var p := e[..|e| - 1];
      var (k, v) := e[|e| - 1];
      UpdateFacts(d, p);
      PutFacts(Update(d, p), k, v);
      LastEntry(e);
    }
  }

  /** A dict seen as all but its last entry, then that entry: the keys
      split the same way, and any other key keeps its value. */
  lemma LastEntry(e: Record)
    requires e != []
    ensures Keys(e) == Keys(e[..|e| - 1]) + [e[|e| - 1].0]
    ensures WellFormed(e) ==> WellFormed(e[..|e| - 1])
    ensures forall k' :: k' != e[|e| - 1].0 ==> Lookup(e, k') == Lookup(e[..|e| - 1], k')
  {
    var p := e[..|e| - 1];
    var (k, v) := e[|e| - 1];
    assert e == p + [(k, v)];
    assert Keys(e) == Keys(p) + [k];
    forall k' | k' != k ensures Lookup(e, k') == Lookup(p, k') {
      LookupOfSnoc(p, k, v, k');
    }
  }

  /** Updating with keys that are all present already keeps the key order. */
  lemma {:induction false} UpdateKeepsKeys(d: Record, e: Record)
    requires forall i :: 0 <= i < |e| ==> e[i].0 in Keys(d)
    ensures Keys(Update(d, e)) == Keys(d)
  {
    if e != [] {
      var p := e[..|e| - 1];
      UpdateKeepsKeys(d, p);
      PutFacts(Update(d, p), e[|e| - 1].0, e[|e| - 1].1);
    }
  }

  /** Updating with the first `n` entries puts the `n`-th after the others. */
  lemma UpdatePrefix(d: Record, e: Record, n: nat)
    requires 0 < n <= |e|
    ensures Update(d, e[..n]) == Put(Update(d, e[..n - 1]), e[n - 1].0, e[n - 1].1)
  {
    assert e[..n][..n - 1] == e[..n - 1];
  }

  /** Updating a dict whose last entries have the keys of `e`, in the same
      order, replaces those entries by `e`. */
  lemma UpdateTail(h: Record, t: Record, e: Record)
    requires WellFormed(h + t) && Keys(t) == Keys(e)
    ensures Update(h + t, e) == h + e
  {
    UpdateTailPrefix(h, t, e, |e|);
    assert e[..|e|] == e;
    assert t[|e|..] == [];
  }

  lemma {:induction false} UpdateTailPrefix(h: Record, t: Record, e: Record, n: nat)
    requires WellFormed(h + t) && Keys(t) == Keys(e) && n <= |e|
    ensures Update(h + t, e[..n]) == h + e[..n] + t[n..]
  {
    if n == 0 {
      assert e[..0] == [];
      assert h + e[..0] + t[0..] == h + t;
    } else {
      UpdateTailPrefix(h, t, e, n - 1);
      UpdatePrefix(h + t, e, n);
      var u := h + e[..n - 1] + t[n - 1..];
      PutAligned(h, t, e, n);
      PutAt(u, |h| + n - 1, e[n - 1].0, e[n - 1].1);
      ReplaceAt(h, t, e, n);
    }
  }

  /** Half-way through, the entry for the next key of `e` is the first with
      that key. */
  lemma PutAligned(h: Record, t: Record, e: Record, n: nat)
    requires WellFormed(h + t) && Keys(t) == Keys(e) && 0 < n <= |e|
    ensures var u := h + e[..n - 1] + t[n - 1..];
      |h| + n - 1 < |u| && u[|h| + n - 1].0 == e[n - 1].0 &&
      forall i :: 0 <= i < |h| + n - 1 ==> u[i].0 != e[n - 1].0
  {
    var u := h + e[..n - 1] + t[n - 1..];
    var j := |h| + n - 1;
    assert u[j].0 == e[n - 1].0 by {
      assert u[j] == t[n - 1] && Keys(t)[n - 1] == Keys(e)[n - 1];
    }
    forall i | 0 <= i < j ensures u[i].0 != e[n - 1].0 {
      assert u[i].0 == Keys(h + t)[i] by {
        if i >= |h| { assert Keys(t)[i - |h|] == Keys(e)[i - |h|]; }
      }
      assert Keys(h + t)[j] == e[n - 1].0;
    }
  }

  lemma ReplaceAt(h: Record, t: Record, e: Record, n: nat)
    requires 0 < n <= |e| && |t| == |e|
    ensures (h + e[..n - 1] + t[n - 1..])[|h| + n - 1 := e[n - 1]] == h + e[..n] + t[n..]
  {
  }

  lemma LookupOfSnoc(p: Record, k: string, v: Value, k': string)
    requires k' != k
    ensures Lookup(p + [(k, v)], k') == Lookup(p, k')
  {
    var q := p + [(k, v)];
    assert Keys(q) == Keys(p) + [k];
    if k' in Keys(p) {
      IndexOfPrefix(Keys(q), Keys(p), k');
    }
  }
}
