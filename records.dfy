/** A parsed JSON object: scalar values, and the dictionary operations the
    detectors apply to it. */
module Records {
  import opened Text

  datatype Option<T> = None | Some(value: T)

  /** A JSON scalar as `json.loads` returns it. */
  datatype Value = Str(s: string) | Num(n: int) | Bool(b: bool) | Null

  function DigitChar(d: nat): char
    requires d < 10
  {
    ('0' as int + d) as char
  }

  /** `str(n)` for a non-negative integer. */
  function DecimalString(n: nat): (r: string)
    ensures IsDecimal(r)
  {
    if n < 10 then [DigitChar(n)] else DecimalString(n / 10) + [DigitChar(n % 10)]
  }

  /** `str(value)` */
  function Render(v: Value): string
  {
    match v
    case Str(s) => s
    case Num(n) => if n < 0 then "-" + DecimalString(-n) else DecimalString(n)
    case Bool(b) => if b then "True" else "False"
    case Null => "None"
  }

  /** Python truthiness: `bool(value)` */
  predicate Truthy(v: Value)
  {
    match v
    case Str(s) => s != ""
    case Num(n) => n != 0
    case Bool(b) => b
    case Null => false
  }

  /** The items of a dictionary, in insertion order. */
  type Record = seq<(string, Value)>

  function KeysOf(r: Record): (keys: seq<string>)
    ensures |keys| == |r|
  {
    seq(|r|, i requires 0 <= i < |r| => r[i].0)
  }

  predicate NoDuplicates(xs: seq<string>)
  {
    forall i, j | 0 <= i < j < |xs| :: xs[i] != xs[j]
  }

  /** What a dictionary guarantees: every key occurs once. */
  predicate DistinctKeys(r: Record)
  {
    forall i, j | 0 <= i < j < |r| :: r[i].0 != r[j].0
  }

  /** `k in d` */
  predicate HasKey(r: Record, k: string) { k in KeysOf(r) }

  /** The position of the first occurrence of x in xs. */
  function FirstIndex(xs: seq<string>, x: string): (i: nat)
    requires x in xs
    ensures i < |xs| && xs[i] == x
    ensures forall j | 0 <= j < i :: xs[j] != x
  {
    if xs[0] == x then 0 else 1 + FirstIndex(xs[1..], x)
  }

  /** `d.get(k)`, with None for a missing key. */
  function Get(r: Record, k: string): (v: Option<Value>)
    ensures v.Some? <==> HasKey(r, k)
    ensures DistinctKeys(r) ==> forall i | 0 <= i < |r| && r[i].0 == k :: v == Some(r[i].1)
  {
    KeyIndex(r, k);
    if HasKey(r, k) then Some(r[FirstIndex(KeysOf(r), k)].1) else None
  }

  /** With distinct keys, the entry holding k is the first one holding k. */
  lemma KeyIndex(r: Record, k: string)
    ensures DistinctKeys(r) ==> forall i | 0 <= i < |r| && r[i].0 == k :: HasKey(r, k) && FirstIndex(KeysOf(r), k) == i
  {
    if DistinctKeys(r) {
      forall i | 0 <= i < |r| && r[i].0 == k ensures HasKey(r, k) && FirstIndex(KeysOf(r), k) == i {
        var keys := KeysOf(r);
        assert keys[i] == k;
        var j := FirstIndex(keys, k);
        assert keys[j] == r[j].0;
      }
    }
  }

  /** `d.get(k, default)` */
  function GetOr(r: Record, k: string, default: Value): Value
  {
    match Get(r, k)
    case Some(v) => v
    case None => default
  }

  /** `d[k] = v`: an existing key keeps its place, a new key goes last. */
  function Put(r: Record, k: string, v: Value): (r': Record)
    ensures KeysOf(r') == if HasKey(r, k) then KeysOf(r) else KeysOf(r) + [k]
    ensures Get(r', k) == Some(v)
    ensures forall k' | k' != k :: Get(r', k') == Get(r, k')
    ensures DistinctKeys(r) ==> DistinctKeys(r')
    ensures HasKey(r, k) ==> forall i | 0 <= i < |r| :: r'[i] == if r[i].0 == k then (k, v) else r[i]
  {
    if HasKey(r, k) then
      var r' := seq(|r|, i requires 0 <= i < |r| => if r[i].0 == k then (k, v) else r[i]);
      assert KeysOf(r') == KeysOf(r);
      r'
    else
      AppendFacts(r, (k, v));
      r + [(k, v)]
  }

  /** The keys and the lookups of a record extended by an entry with a new key. */
  lemma AppendFacts(r: Record, e: (string, Value))
    requires !HasKey(r, e.0)
    ensures KeysOf(r + [e]) == KeysOf(r) + [e.0]
    ensures forall k :: Get(r + [e], k) == if k == e.0 then Some(e.1) else Get(r, k)
    ensures DistinctKeys(r) ==> DistinctKeys(r + [e])
  {
    var keys := KeysOf(r + [e]);
    assert keys == KeysOf(r) + [e.0];
    forall k ensures Get(r + [e], k) == if k == e.0 then Some(e.1) else Get(r, k) {
      if k == e.0 {
        assert keys[|r|] == k;
      } else if HasKey(r, k) {
        var i := FirstIndex(KeysOf(r), k);
        assert keys[i] == k;
      }
    }
    if DistinctKeys(r) {
      forall i | 0 <= i < |r| ensures r[i].0 != e.0 {
        assert KeysOf(r)[i] == r[i].0;
      }
    }
  }

  /** The keys and the lookups of a record that starts with entry e. */
  lemma ConsFacts(e: (string, Value), r: Record)
    ensures KeysOf([e] + r) == [e.0] + KeysOf(r)
    ensures forall k :: Get([e] + r, k) == if e.0 == k then Some(e.1) else Get(r, k)
  {
    var keys := KeysOf([e] + r);
    assert keys == [e.0] + KeysOf(r);
    forall k ensures Get([e] + r, k) == if e.0 == k then Some(e.1) else Get(r, k) {
      if e.0 != k && HasKey(r, k) {
        var i := FirstIndex(KeysOf(r), k);
        assert keys[i + 1] == k;
      }
    }
  }

  lemma Unfold(r: Record)
    requires r != []
    ensures KeysOf(r) == [r[0].0] + KeysOf(r[1..])
    ensures forall k :: Get(r, k) == if r[0].0 == k then Some(r[0].1) else Get(r[1..], k)
  {
    assert r == [r[0]] + r[1..];
    ConsFacts(r[0], r[1..]);
  }

  lemma DistinctCons(e: (string, Value), r: Record)
    ensures DistinctKeys(r) && e.0 !in KeysOf(r) ==> DistinctKeys([e] + r)
  {
    if DistinctKeys(r) && e.0 !in KeysOf(r) {
      forall i, j | 0 <= i < j < |r| + 1 ensures ([e] + r)[i].0 != ([e] + r)[j].0 {
        assert ([e] + r)[j] == r[j - 1];
        if i == 0 {
          assert KeysOf(r)[j - 1] == r[j - 1].0;
        } else {
          assert ([e] + r)[i] == r[i - 1];
        }
      }
    }
  }

  lemma HeadNotInTail(r: Record)
    requires r != []
    ensures DistinctKeys(r) ==> r[0].0 !in KeysOf(r[1..])
  {
    if DistinctKeys(r) {
      forall j | 0 <= j < |r| - 1 ensures KeysOf(r[1..])[j] != r[0].0 {
        assert KeysOf(r[1..])[j] == r[j + 1].0;
      }
    }
  }

  /** `del d[k]`, and nothing for a missing key. */
  function Delete(r: Record, k: string): (r': Record)
    ensures !HasKey(r', k)
    ensures forall x | x in KeysOf(r') :: x in KeysOf(r)
    ensures forall k' | k' != k :: Get(r', k') == Get(r, k')
    ensures DistinctKeys(r) ==> DistinctKeys(r')
    ensures IsSubsequence(KeysOf(r'), KeysOf(r))
    decreases |r|
  {
    if r == [] then []
    else
      var rest := Delete(r[1..], k);
      Unfold(r);
      ConsFacts(r[0], rest);
      DistinctCons(r[0], rest);
      HeadNotInTail(r);
      SubsequenceCons(r[0].0, KeysOf(rest), KeysOf(r[1..]));
      if r[0].0 == k then rest else [r[0]] + rest
  }

  lemma KeysOfPrefix(r: Record, n: nat)
    requires n <= |r|
    ensures KeysOf(r[..n]) == KeysOf(r)[..n]
  {
  }

  lemma LastNotInInit(r: Record)
    requires r != []
    ensures DistinctKeys(r) ==> r[|r| - 1].0 !in KeysOf(r[..|r| - 1])
  {
    if DistinctKeys(r) {
      var init := r[..|r| - 1];
      forall j | 0 <= j < |init| ensures KeysOf(init)[j] != r[|r| - 1].0 {
        assert KeysOf(init)[j] == r[j].0;
      }
    }
  }

  /** The keys of the entries that satisfy keep, in record order: the list a
      loop over `d.items()` builds by appending each key that passes. */
  function Select(r: Record, keep: (string, Value) -> bool): (keys: seq<string>)
    ensures forall x | x in keys :: x in KeysOf(r)
    ensures DistinctKeys(r) ==> NoDuplicates(keys)
    decreases |r|
  {
    if r == [] then []
    else
      var init := r[..|r| - 1];
      var last := r[|r| - 1];
      KeysOfPrefix(r, |r| - 1);
      LastNotInInit(r);
      assert KeysOf(r)[|r| - 1] == last.0;
      assert forall x | x in KeysOf(init) :: x in KeysOf(r);
      Select(init, keep) + (if keep(last.0, last.1) then [last.0] else [])
  }

  /** One more entry of a loop over the items. */
  lemma SelectStep(r: Record, keep: (string, Value) -> bool, i: nat)
    requires i < |r|
    ensures Select(r[..i + 1], keep) == Select(r[..i], keep) + (if keep(r[i].0, r[i].1) then [r[i].0] else [])
  {
    assert r[..i + 1][..i] == r[..i];
  }

  /** With distinct keys, a key is selected exactly when its entry satisfies keep. */
  lemma {:induction false} SelectMember(r: Record, keep: (string, Value) -> bool, i: nat)
    requires DistinctKeys(r) && i < |r|
    ensures r[i].0 in Select(r, keep) <==> keep(r[i].0, r[i].1)
    decreases |r|
  {
    var n := |r| - 1;
    var init := r[..n];
    LastNotInInit(r);
    if i < n {
      SelectMember(init, keep, i);
      assert r[i].0 != r[n].0;
    } else {
      assert r[i].0 !in Select(init, keep);
    }
  }

  /** xs is xs with some elements left out of ys, the rest in the same order. */
  predicate IsSubsequence(xs: seq<string>, ys: seq<string>)
    decreases |ys|
  {
    xs == [] || (ys != [] && if xs[0] == ys[0] then IsSubsequence(xs[1..], ys[1..]) else IsSubsequence(xs, ys[1..]))
  }

  lemma {:induction false} SubsequenceExtend(xs: seq<string>, ys: seq<string>, y: string)
    requires IsSubsequence(xs, ys)
    ensures IsSubsequence(xs, ys + [y])
    decreases |ys|
  {
    if xs != [] {
      assert (ys + [y])[1..] == ys[1..] + [y];
      if xs[0] == ys[0] {
        SubsequenceExtend(xs[1..], ys[1..], y);
      } else {
        SubsequenceExtend(xs, ys[1..], y);
      }
    }
  }

  lemma {:induction false} SubsequenceLast(ys: seq<string>, y: string)
    ensures IsSubsequence([y], ys + [y])
    decreases |ys|
  {
    if ys != [] {
      assert (ys + [y])[1..] == ys[1..] + [y];
      if ys[0] != y {
        SubsequenceLast(ys[1..], y);
      }
    }
  }

  lemma {:induction false} SubsequenceSnoc(xs: seq<string>, ys: seq<string>, y: string)
    requires IsSubsequence(xs, ys)
    ensures IsSubsequence(xs + [y], ys + [y])
    decreases |ys|
  {
    if xs == [] {
      assert xs + [y] == [y];
      SubsequenceLast(ys, y);
    } else {
      assert (xs + [y])[1..] == xs[1..] + [y];
      assert (ys + [y])[1..] == ys[1..] + [y];
      if xs[0] == ys[0] {
        SubsequenceSnoc(xs[1..], ys[1..], y);
      } else {
        SubsequenceSnoc(xs, ys[1..], y);
      }
    }
  }

  /** A common first element, or a new first element that xs does not hold. */
  lemma SubsequenceCons(y: string, xs: seq<string>, ys: seq<string>)
    requires IsSubsequence(xs, ys)
    ensures IsSubsequence([y] + xs, [y] + ys)
    ensures y !in xs ==> IsSubsequence(xs, [y] + ys)
  {
    assert ([y] + xs)[1..] == xs;
    assert ([y] + ys)[1..] == ys;
  }

  /** The selected keys keep the record's order. */
  lemma {:induction false} SelectOrdered(r: Record, keep: (string, Value) -> bool)
    ensures IsSubsequence(Select(r, keep), KeysOf(r))
    decreases |r|
  {
    if r != [] {
      var n := |r| - 1;
      var prev := Select(r[..n], keep);
      SelectOrdered(r[..n], keep);
      KeysOfPrefix(r, n);
      assert KeysOf(r) == KeysOf(r[..n]) + [r[n].0];
      if keep(r[n].0, r[n].1) {
        assert Select(r, keep) == prev + [r[n].0];
        SubsequenceSnoc(prev, KeysOf(r[..n]), r[n].0);
      } else {
        assert Select(r, keep) == prev + [];
        assert prev + [] == prev;
        SubsequenceExtend(prev, KeysOf(r[..n]), r[n].0);
      }
    }
  }

  /** Assigning a key of `data` in a record whose keys line up with `data`'s. */
  lemma PutAligned(data: Record, r: Record, k: string, v: Value)
    requires |r| == |data| && forall j | 0 <= j < |r| :: r[j].0 == data[j].0
    requires HasKey(data, k)
    ensures |Put(r, k, v)| == |r|
    ensures forall j | 0 <= j < |r| :: Put(r, k, v)[j] == if data[j].0 == k then (k, v) else r[j]
  {
    assert KeysOf(r) == KeysOf(data);
  }

  /** A record whose keys line up with those of data answers lookups entry by entry. */
  lemma GetAligned(data: Record, r: Record, k: string)
    requires DistinctKeys(data) && |r| == |data| && forall j | 0 <= j < |r| :: r[j].0 == data[j].0
    ensures DistinctKeys(r)
    ensures HasKey(r, k) <==> HasKey(data, k)
    ensures forall i | 0 <= i < |data| && data[i].0 == k :: Get(r, k) == Some(r[i].1) && Get(data, k) == Some(data[i].1)
  {
    assert KeysOf(r) == KeysOf(data);
  }
}
