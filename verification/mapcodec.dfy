/**
 The `std::map` serialiser of the checkpoint: `operator<<` writes a 32-bit
 count and then every key/value pair in ascending key order; `operator>>`
 reads the count, clears the destination and inserts that many pairs.
 */
module MapCodec {
  import opened Words
  import opened Wrappers
  import opened Stream
  import opened Orders

  /** How one map type is put on the stream: its key order and its key and value fields. */
  datatype Format<!K(!new), !V> = Format(
    less: (K, K) -> bool,
    putKey: K -> Token,
    getKey: Token -> Option<K>,
    putValue: V -> Token,
    getValue: Token -> Option<V>)

  /** Key `k` reads back as written. */
  ghost predicate KeyReadsBack<K(!new), V>(f: Format<K, V>, k: K)
  {
    f.getKey(f.putKey(k)) == Some(k)
  }

  /** Value `v` reads back as written. */
  ghost predicate ValueReadsBack<K(!new), V>(f: Format<K, V>, v: V)
  {
    f.getValue(f.putValue(v)) == Some(v)
  }

  /** Every key and value field reads back as written. */
  ghost predicate FieldsReadBack<K(!new), V(!new)>(f: Format<K, V>)
  {
    && (forall k :: KeyReadsBack(f, k))
    && (forall v :: ValueReadsBack(f, v))
  }

  /** A format the serialiser can rely on: a strict total key order and fields that read back. */
  ghost predicate ValidFormat<K(!new), V(!new)>(f: Format<K, V>)
  {
    StrictTotalOrder(f.less) && FieldsReadBack(f)
  }

  // Iteration order.

  /** Each key comes before every key after it. */
  ghost predicate Ascending<K>(ks: seq<K>, less: (K, K) -> bool)
    decreases |ks|
  {
    ks != [] ==> (forall j :: 0 < j < |ks| ==> less(ks[0], ks[j])) && Ascending(ks[1..], less)
  }

  predicate IsLeast<K(!new)>(k: K, s: set<K>, less: (K, K) -> bool)
  {
    k in s && forall j :: j in s && j != k ==> less(k, j)
  }

  lemma {:induction false} LeastExists<K(!new)>(s: set<K>, less: (K, K) -> bool)
    requires StrictTotalOrder(less)
    requires s != {}
    ensures exists k :: IsLeast(k, s, less)
    decreases |s|
  {
    var x :| x in s;
    if s != {x} {
      LeastExists(s - {x}, less);
      var y :| IsLeast(y, s - {x}, less);
      if less(x, y) {
        forall j | j in s && j != x ensures less(x, j) {
          if j != y {
            assert less(y, j);
          }
        }
        assert IsLeast(x, s, less);
      } else {
        assert IsLeast(y, s, less);
      }
    } else {
      assert IsLeast(x, s, less);
    }
  }

  /** The keys of a map in the order a `std::map` iterates them: ascending, each once. */
  function SortedKeys<K(!new)>(s: set<K>, less: (K, K) -> bool): (ks: seq<K>)
    requires StrictTotalOrder(less)
    ensures |ks| == |s|
    ensures forall k :: k in ks <==> k in s
    ensures Ascending(ks, less)
    decreases |s|
  {
    if s == {} then []
    else
      LeastExists(s, less);
      var k :| IsLeast(k, s, less);
      [k] + SortedKeys(s - {k}, less)
  }

  /** Iteration order is fixed by the key set: any ascending listing of the keys is that order. */
  lemma {:induction false} SortedKeysUnique<K(!new)>(ks: seq<K>, s: set<K>, less: (K, K) -> bool)
    requires StrictTotalOrder(less)
    requires Ascending(ks, less)
    requires forall k :: k in ks <==> k in s
    ensures ks == SortedKeys(s, less)
    decreases |ks|
  {
    if ks == [] {
      assert s == {};
    } else {
      var head := ks[0];
      SortedKeysStep(ks, s, less);
      AscendingTail(ks, s, less);
      SortedKeysUnique(ks[1..], s - {head}, less);
      assert ks == [head] + ks[1..];
    }
  }

  lemma SortedKeysStep<K(!new)>(ks: seq<K>, s: set<K>, less: (K, K) -> bool)
    requires StrictTotalOrder(less)
    requires Ascending(ks, less)
    requires forall k :: k in ks <==> k in s
    requires ks != []
    ensures ks[0] in s
    ensures SortedKeys(s, less) == [ks[0]] + SortedKeys(s - {ks[0]}, less)
  {
    AscendingHeadIsLeast(ks, s, less);
    SortedKeysCons(s, less);
    LeastUnique(ks[0], SortedKeys(s, less)[0], s, less);
  }

  lemma SortedKeysCons<K(!new)>(s: set<K>, less: (K, K) -> bool)
    requires StrictTotalOrder(less)
    requires s != {}
    ensures IsLeast(SortedKeys(s, less)[0], s, less)
    ensures SortedKeys(s, less) == [SortedKeys(s, less)[0]] + SortedKeys(s - {SortedKeys(s, less)[0]}, less)
  {
  }

  lemma AscendingHeadIsLeast<K(!new)>(ks: seq<K>, s: set<K>, less: (K, K) -> bool)
    requires Ascending(ks, less)
    requires forall k :: k in ks <==> k in s
    requires ks != []
    ensures IsLeast(ks[0], s, less)
  {
    forall j | j in s && j != ks[0] ensures less(ks[0], j) {
      var i :| 0 <= i < |ks| && ks[i] == j;
    }
  }

  lemma LeastUnique<K(!new)>(a: K, b: K, s: set<K>, less: (K, K) -> bool)
    requires StrictTotalOrder(less)
    requires IsLeast(a, s, less) && IsLeast(b, s, less)
    ensures a == b
  {
  }

  lemma AscendingTail<K(!new)>(ks: seq<K>, s: set<K>, less: (K, K) -> bool)
    requires StrictTotalOrder(less)
    requires Ascending(ks, less)
    requires forall k :: k in ks <==> k in s
    requires ks != []
    ensures Ascending(ks[1..], less)
    ensures forall k :: k in ks[1..] <==> k in s - {ks[0]}
  {
    forall k ensures k in ks[1..] <==> k in s - {ks[0]} {
      if k in ks[1..] {
        var i :| 1 <= i < |ks| && ks[i] == k;
        assert less(ks[0], k);
      }
      if k in s - {ks[0]} {
        var i :| 0 <= i < |ks| && ks[i] == k;
      }
    }
  }

  // Writing.

  /** The pairs of `m` at keys `ks`, in that order, key before value. */
  function Pairs<K(!new), V>(ks: seq<K>, m: map<K, V>, f: Format<K, V>): (ts: seq<Token>)
    requires forall k :: k in ks ==> k in m
    ensures |ts| == 2 * |ks|
    ensures forall i :: 0 <= i < |ks| ==> ts[2 * i] == f.putKey(ks[i]) && ts[2 * i + 1] == f.putValue(m[ks[i]])
  {
    if ks == [] then []
    else [f.putKey(ks[0]), f.putValue(m[ks[0]])] + Pairs(ks[1..], m, f)
  }

  /**
   `os << m`: the count (truncated to `vluint32_t`) and then every pair, keys ascending.
   */
  function EncodeMap<K(!new), V>(m: map<K, V>, f: Format<K, V>): (ts: seq<Token>)
    requires StrictTotalOrder(f.less)
    ensures |ts| == 1 + 2 * |m|
    ensures ts[0] == Word32(|m| % TWO_32)
    ensures ts[1..] == Pairs(SortedKeys(m.Keys, f.less), m, f)
  {
    [Word32(|m| % TWO_32)] + Pairs(SortedKeys(m.Keys, f.less), m, f)
  }

  /**
   Serialisation is deterministic: the stream is the count followed by the
   pairs listed in ascending key order, whichever ascending listing is taken.
   */
  lemma EncodeFollowsAnyAscendingListing<K(!new), V>(m: map<K, V>, ks: seq<K>, f: Format<K, V>)
    requires StrictTotalOrder(f.less)
    requires Ascending(ks, f.less)
    requires forall k :: k in ks <==> k in m
    ensures EncodeMap(m, f) == [Word32(|m| % TWO_32)] + Pairs(ks, m, f)
  {
    SortedKeysUnique(ks, m.Keys, f.less);
  }

  // Reading.

  /** Pair `j` of `ts` consists of a readable key followed by a readable value. */
  predicate PairReadable<K(!new), V>(ts: seq<Token>, j: nat, f: Format<K, V>)
    requires 2 * j + 1 < |ts|
  {
    f.getKey(ts[2 * j]).Some? && f.getValue(ts[2 * j + 1]).Some?
  }

  function KeyAt<K(!new), V>(ts: seq<Token>, j: nat, f: Format<K, V>): Option<K>
    requires 2 * j < |ts|
  {
    f.getKey(ts[2 * j])
  }

  /**
   The body of `operator>>`: `n` times, read a key, read a value, and store the
   value at the key, replacing what was there.
   */
  function ReadPairs<K(!new), V>(ts: seq<Token>, n: nat, acc: map<K, V>, f: Format<K, V>): (r: Result<(map<K, V>, seq<Token>)>)
    ensures r.Success? ==> 2 * n <= |ts| && r.value.1 == ts[2 * n..]
    ensures 2 * n > |ts| ==> r == Failure(Truncated) || r == Failure(UnexpectedToken)
    decreases n
  {
    if n == 0 then Success((acc, ts))
    else if ts == [] then Failure(Truncated)
    else match f.getKey(ts[0])
      case None => Failure(UnexpectedToken)
      case Some(k) =>
        if |ts| == 1 then Failure(Truncated)
        else match f.getValue(ts[1])
          case None => Failure(UnexpectedToken)
          case Some(v) => ReadPairs(ts[2..], n - 1, acc[k := v], f)
  }

  /** The read succeeds exactly when the stream holds `n` readable pairs. */
  lemma {:induction false} ReadPairsSucceeds<K(!new), V>(ts: seq<Token>, n: nat, acc: map<K, V>, f: Format<K, V>)
    ensures ReadPairs(ts, n, acc, f).Success? <==> 2 * n <= |ts| && forall j :: 0 <= j < n ==> PairReadable(ts, j, f)
    decreases n
  {
    if n > 0 && 2 * n <= |ts| {
      var k, v := f.getKey(ts[0]), f.getValue(ts[1]);
      if k.Some? && v.Some? {
        ReadPairsSucceeds(ts[2..], n - 1, acc[k.value := v.value], f);
        forall j | 0 <= j < n - 1 ensures PairReadable(ts[2..], j, f) <==> PairReadable(ts, j + 1, f) {
          assert ts[2..][2 * j] == ts[2 * (j + 1)];
        }
        if forall j :: 0 <= j < n - 1 ==> PairReadable(ts[2..], j, f) {
          forall j | 0 <= j < n ensures PairReadable(ts, j, f) {
            if j > 0 {
              assert PairReadable(ts[2..], j - 1, f);
            }
          }
        }
      } else {
        assert !PairReadable(ts, 0, f);
      }
    }
  }

  /**
   One turn of the reading loop: a successful read starts with a readable
   pair, and reading a readable pair stores it and moves past it.
   */
  lemma ReadPairsStep<K(!new), V>(ts: seq<Token>, n: nat, acc: map<K, V>, f: Format<K, V>)
    requires n > 0
    ensures ReadPairs(ts, n, acc, f).Success? ==> 2 <= |ts| && f.getKey(ts[0]).Some? && f.getValue(ts[1]).Some?
    ensures 2 <= |ts| && f.getKey(ts[0]).Some? && f.getValue(ts[1]).Some? ==>
              ReadPairs(ts, n, acc, f) == ReadPairs(ts[2..], n - 1, acc[f.getKey(ts[0]).value := f.getValue(ts[1]).value], f)
  {
  }

  /** `rhs.clear()`. */
  function Clear<K, V>(m: map<K, V>): (r: map<K, V>)
    ensures r == map[]
  {
    m - m.Keys
  }

  /** `os >> m`: read the count, clear `dest`, read that many pairs. */
  function DecodeMap<K(!new), V>(dest: map<K, V>, ts: seq<Token>, f: Format<K, V>): (r: Result<(map<K, V>, seq<Token>)>)
    ensures ts == [] ==> r == Failure(Truncated)
    ensures ts != [] && !ts[0].Word32? ==> r == Failure(UnexpectedToken)
    ensures r.Success? ==> ts[0].Word32? && 1 + 2 * ts[0].w32 <= |ts|
    ensures r.Success? ==> r.value.1 == ts[1 + 2 * ts[0].w32..]
  {
    if ts == [] then Failure(Truncated)
    else if !ts[0].Word32? then Failure(UnexpectedToken)
    else ReadPairs(ts[1..], ts[0].w32, Clear(dest), f)
  }

  /** Clearing first makes the result a function of the stream alone. */
  lemma DecodeIgnoresDestination<K(!new), V>(d1: map<K, V>, d2: map<K, V>, ts: seq<Token>, f: Format<K, V>)
    ensures DecodeMap(d1, ts, f) == DecodeMap(d2, ts, f)
  {
    assert Clear(d1) == Clear(d2);
  }

  /** `acc` after storing `m`'s value at each key of `ks` in turn. */
  function Overlay<K(!new), V>(acc: map<K, V>, m: map<K, V>, ks: seq<K>): map<K, V>
    requires forall k :: k in ks ==> k in m
    decreases |ks|
  {
    if ks == [] then acc
    else Overlay(acc[ks[0] := m[ks[0]]], m, ks[1..])
  }

  /** Every key stored holds `m`'s value; every other key keeps its value from `acc`. */
  lemma {:induction false} OverlayContents<K(!new), V>(acc: map<K, V>, m: map<K, V>, ks: seq<K>, k: K)
    requires forall k :: k in ks ==> k in m
    ensures k in Overlay(acc, m, ks) <==> k in acc || k in ks
    ensures k in ks ==> Overlay(acc, m, ks)[k] == m[k]
    ensures k !in ks && k in acc ==> Overlay(acc, m, ks)[k] == acc[k]
    decreases |ks|
  {
    if ks != [] {
      OverlayContents(acc[ks[0] := m[ks[0]]], m, ks[1..], k);
      assert k in ks <==> k == ks[0] || k in ks[1..] by {
        assert ks == [ks[0]] + ks[1..];
      }
    }
  }

  /** Reading back pairs written for keys `ks` of `m` performs the same stores, in the same order. */
  lemma {:induction false} ReadWrittenPairs<K(!new), V(!new)>(ks: seq<K>, m: map<K, V>, rest: seq<Token>, acc: map<K, V>, f: Format<K, V>)
    requires FieldsReadBack(f)
    requires forall k :: k in ks ==> k in m
    ensures ReadPairs(Pairs(ks, m, f) + rest, |ks|, acc, f) == Success((Overlay(acc, m, ks), rest))
    decreases |ks|
  {
    if ks != [] {
      var k := ks[0];
      var ts := Pairs(ks, m, f) + rest;
      var tail := Pairs(ks[1..], m, f);
      assert ts == [f.putKey(k), f.putValue(m[k])] + (tail + rest);
      assert ts[0] == f.putKey(k) && ts[1] == f.putValue(m[k]);
      assert ts[2..] == tail + rest;
      assert KeyReadsBack(f, k) && ValueReadsBack(f, m[k]);
      ReadPairsStep(ts, |ks|, acc, f);
      ReadWrittenPairs(ks[1..], m, rest, acc[k := m[k]], f);
    }
  }

  lemma SameMap<K, V>(a: map<K, V>, b: map<K, V>)
    requires forall k :: k in a <==> k in b
    requires forall k :: k in a ==> a[k] == b[k]
    ensures a == b
  {
  }

  /**
   Round trip: reading back a serialised map, whatever the destination held
   and whatever follows in the stream, yields the map and consumes exactly
   its `1 + 2 * |m|` tokens, as long as its size fits the 32-bit count.
   */
  lemma MapRoundTrip<K(!new), V(!new)>(m: map<K, V>, dest: map<K, V>, rest: seq<Token>, f: Format<K, V>)
    requires ValidFormat(f)
    requires |m| < TWO_32
    ensures DecodeMap(dest, EncodeMap(m, f) + rest, f) == Success((m, rest))
  {
    var ks := SortedKeys(m.Keys, f.less);
    EncodeShape(m, rest, f);
    DecodeShape(dest, |ks|, Pairs(ks, m, f) + rest, f);
    ReadBackAll(ks, m, rest, f);
  }

  lemma EncodeShape<K(!new), V>(m: map<K, V>, rest: seq<Token>, f: Format<K, V>)
    requires StrictTotalOrder(f.less)
    requires |m| < TWO_32
    ensures EncodeMap(m, f) + rest == [Word32(|m|)] + (Pairs(SortedKeys(m.Keys, f.less), m, f) + rest)
  {
    FitsUnchanged(|m|);
  }

  lemma DecodeShape<K(!new), V>(dest: map<K, V>, c: u32, tail: seq<Token>, f: Format<K, V>)
    ensures DecodeMap(dest, [Word32(c)] + tail, f) == ReadPairs(tail, c, map[], f)
  {
    assert ([Word32(c)] + tail)[1..] == tail;
  }

  lemma FitsUnchanged(x: int)
    requires 0 <= x < TWO_32
    ensures x % TWO_32 == x
  {
  }

  /** Pairs written for every key of `m`, read into an empty map, rebuild `m`. */
  lemma ReadBackAll<K(!new), V(!new)>(ks: seq<K>, m: map<K, V>, rest: seq<Token>, f: Format<K, V>)
    requires FieldsReadBack(f)
    requires forall k :: k in ks <==> k in m
    ensures ReadPairs(Pairs(ks, m, f) + rest, |ks|, map[], f) == Success((m, rest))
  {
    ReadWrittenPairs(ks, m, rest, map[], f);
    var got := Overlay(map[], m, ks);
    forall k ensures (k in got <==> k in m) && (k in got ==> got[k] == m[k]) {
      OverlayContents(map[], m, ks, k);
    }
    SameMap(got, m);
  }

  /** A key that no pair of the stream carries keeps its value from before the read. */
  lemma {:induction false} UnreadKeyKept<K(!new), V>(ts: seq<Token>, n: nat, acc: map<K, V>, f: Format<K, V>, k: K)
    requires ReadPairs(ts, n, acc, f).Success?
    requires forall j :: 0 <= j < n ==> KeyAt(ts, j, f) != Some(k)
    ensures k in ReadPairs(ts, n, acc, f).value.0 <==> k in acc
    ensures k in acc ==> ReadPairs(ts, n, acc, f).value.0[k] == acc[k]
    decreases n
  {
    if n > 0 {
      ReadPairsStep(ts, n, acc, f);
      assert KeyAt(ts, 0, f) != Some(k);
      var v := f.getValue(ts[1]).value;
      var key := f.getKey(ts[0]).value;
      forall j | 0 <= j < n - 1 ensures KeyAt(ts[2..], j, f) != Some(k) {
        assert KeyAt(ts, j + 1, f) != Some(k);
      }
      UnreadKeyKept(ts[2..], n - 1, acc[key := v], f, k);
    }
  }

  /** When a stream repeats a key, the value of its last pair is the one kept. */
  lemma {:induction false} LaterValueWins<K(!new), V>(ts: seq<Token>, n: nat, acc: map<K, V>, f: Format<K, V>, i: nat, k: K)
    requires ReadPairs(ts, n, acc, f).Success?
    requires i < n
    requires KeyAt(ts, i, f) == Some(k)
    requires forall j :: i < j < n ==> KeyAt(ts, j, f) != Some(k)
    ensures k in ReadPairs(ts, n, acc, f).value.0
    ensures Some(ReadPairs(ts, n, acc, f).value.0[k]) == f.getValue(ts[2 * i + 1])
    decreases n
  {
    ReadPairsStep(ts, n, acc, f);
    var v := f.getValue(ts[1]).value;
    var key := f.getKey(ts[0]).value;
    if i == 0 {
      forall j | 0 <= j < n - 1 ensures KeyAt(ts[2..], j, f) != Some(k) {
        assert KeyAt(ts, j + 1, f) != Some(k);
      }
      UnreadKeyKept(ts[2..], n - 1, acc[key := v], f, k);
    } else {
      assert KeyAt(ts[2..], i - 1, f) == Some(k);
      forall j | i - 1 < j < n - 1 ensures KeyAt(ts[2..], j, f) != Some(k) {
        assert KeyAt(ts, j + 1, f) != Some(k);
      }
      LaterValueWins(ts[2..], n - 1, acc[key := v], f, i - 1, k);
      assert ts[2..][2 * (i - 1) + 1] == ts[2 * i + 1];
    }
  }
}
