/** Invalidating cache namespaces: keys registered under a namespace are deleted in chunks. */
module CacheInvalidation {
  import opened Prelude

  /** The non-empty strings among `values`, each at its first place (`uniqueStrings`). */
  function UniqueStrings(values: seq<string>): seq<string> {
    if values == [] then []
    else
      var before, last := UniqueStrings(values[..|values| - 1]), values[|values| - 1];
      if last == "" || last in before then before else before + [last]
  }

  function NonEmpty(values: seq<string>): set<string> {
    ToSet(values) - {""}
  }

  /** Each non-empty string survives exactly once, in the order of first occurrence. */
  lemma {:induction false} UniqueStringsKeepsFirsts(values: seq<string>)
    ensures Distinct(UniqueStrings(values)) && ToSet(UniqueStrings(values)) == NonEmpty(values)
    ensures forall x, y | BeforeFirst(values, x, y) && x != "" && y != "" :: BeforeFirst(UniqueStrings(values), x, y)
  {
    if values != [] {
      var init, last := values[..|values| - 1], values[|values| - 1];
      UniqueStringsKeepsFirsts(init);
      assert values == init + [last];
      assert ToSet(values) == ToSet(init) + {last};
      var u, v := UniqueStrings(init), UniqueStrings(values);
      assert v == u || (v == u + [last] && last !in u && ToSet(v) == ToSet(u) + {last});
      forall x, y | BeforeFirst(values, x, y) && x != "" && y != "" ensures BeforeFirst(v, x, y) {
        var i :| 0 <= i < |values| && values[i] == x && y !in values[..i + 1];
        if i < |init| {
          assert init[..i + 1] == values[..i + 1];
          assert BeforeFirst(init, x, y);
          var k :| 0 <= k < |u| && u[k] == x && y !in u[..k + 1];
          assert v[k] == x && v[..k + 1] == u[..k + 1];
        } else {
          assert values[..i + 1] == values;
          assert y !in ToSet(values) && y !in ToSet(v) && x in NonEmpty(values) && x in ToSet(v);
          var k :| 0 <= k < |v| && v[k] == x;
          assert forall z | z in v[..k + 1] :: z in v;
        }
      }
    }
  }

  /** `x` occurs somewhere before the first `y`, if there is a `y` at all. */
  ghost predicate BeforeFirst(s: seq<string>, x: string, y: string) {
    exists i | 0 <= i < |s| :: s[i] == x && y !in s[..i + 1]
  }

  function RegisteredUnder(sets: map<string, set<string>>, namespace: string): set<string> {
    if namespace in sets then sets[namespace] else {}
  }

  /** Keys registered under any of the namespaces; the empty key is never deleted. */
  function Registered(sets: map<string, set<string>>, namespaces: set<string>): set<string> {
    (set n, k | n in namespaces && n in sets && k in sets[n] :: k) - {""}
  }

  /** What is left of the cache after deleting some keys, and how many of them were there. */
  function Without(values: map<string, string>, keys: set<string>): map<string, string> {
    values - keys
  }

  function Hits(values: map<string, string>, keys: set<string>): nat {
    |values.Keys * keys|
  }

  lemma NothingDeleted(values: map<string, string>)
    ensures Without(values, {}) == values && Hits(values, {}) == 0
  {
    assert values.Keys * {} == {};
  }

  /** Deleting `a` and then `b` removes as many keys as deleting both at once. */
  lemma DeletionsAdd(values: map<string, string>, a: set<string>, b: set<string>)
    ensures Without(Without(values, a), b) == Without(values, a + b)
    ensures Hits(values, a) + Hits(Without(values, a), b) == Hits(values, a + b)
  {
    assert (values - a).Keys == values.Keys - a;
    HitsAdd(values.Keys, a, b);
  }

  lemma HitsAdd(keys: set<string>, a: set<string>, b: set<string>)
    ensures |keys * a| + |(keys - a) * b| == |keys * (a + b)|
  {
    assert keys * (a + b) == keys * a + (keys - a) * b;
  }

  lemma ChunkExtends(unique: seq<string>, index: nat, end: nat)
    requires index <= end <= |unique|
    ensures ToSet(unique[..end]) == ToSet(unique[..index]) + ToSet(unique[index..end])
  {
    assert unique[..end] == unique[..index] + unique[index..end];
  }

  // ---------------------------------------------------------------- chunks

  /** DELETE_CHUNK_SIZE: the number in the environment, or 200 when there is none or it is zero. */
  function ChunkSize(configured: Option<real>): real {
    if configured.Some? && configured.value != 0.0 then configured.value else 200.0
  }

  /** Towards zero, as array positions are read. */
  function Truncate(x: real): int {
    if x >= 0.0 then x.Floor else -(-x).Floor
  }

  /** A position of `slice` in an array of `n`: negative ones count from the end. */
  function Position(n: nat, x: real): (p: nat)
    ensures p <= n
  {
    var i := Truncate(x);
    if i < 0 then (if n + i < 0 then 0 else n + i) else if i < n then i else n
  }

  function Slice(s: seq<string>, start: real, end: real): seq<string> {
    if Position(|s|, start) <= Position(|s|, end) then s[Position(|s|, start)..Position(|s|, end)] else []
  }

  /** Redis refuses a DEL without keys. */
  datatype CommandError = NoArguments

  /** The cache after `deleteKeys`, and its answer. */
  function DeleteOutcome(values: map<string, string>, keys: seq<string>, size: real): (map<string, string>, Result<nat, CommandError>) {
    var unique := UniqueStrings(keys);
    if unique == [] || size >= 1.0 then (Without(values, ToSet(unique)), Ok(Hits(values, ToSet(unique))))
    else (Without(values, ToSet(unique[..FirstPass(unique, size)])), Err(NoArguments))
  }

  /** The parts, end to end. */
  function Joined(chunks: seq<seq<string>>): seq<string> {
    if chunks == [] then [] else Joined(chunks[..|chunks| - 1]) + chunks[|chunks| - 1]
  }

  /** The keys cut into parts of `n` in order; only the last may be shorter, and none is empty. */
  ghost predicate CutInto(keys: seq<string>, chunks: seq<seq<string>>, n: nat) {
    && Joined(chunks) == keys
    && (forall i | 0 <= i < |chunks| :: 1 <= |chunks[i]| <= n && (i < |chunks| - 1 ==> |chunks[i]| == n))
  }

  /** So far: all parts are full, or the keys are used up. */
  ghost predicate CutSoFar(unique: seq<string>, chunks: seq<seq<string>>, index: real, n: nat) {
    && index >= 0.0 && index == index.Floor as real
    && CutInto(unique[..Position(|unique|, index)], chunks, n)
    && (index < |unique| as real ==> forall i | 0 <= i < |chunks| :: |chunks[i]| == n)
  }

  lemma NextCut(unique: seq<string>, chunks: seq<seq<string>>, index: real, n: nat)
    requires CutSoFar(unique, chunks, index, n) && index < |unique| as real && n >= 1
    ensures CutSoFar(unique, chunks + [Slice(unique, index, index + n as real)], index + n as real, n)
  {
    var chunk := Slice(unique, index, index + n as real);
    ChunkMoves(unique, index, n as real);
    var from, to := Position(|unique|, index), Position(|unique|, index + n as real);
    assert (index + n as real).Floor == index.Floor + n;
    assert (chunks + [chunk])[..|chunks|] == chunks;
    assert unique[..to] == unique[..from] + chunk;
  }

  lemma NothingCut(unique: seq<string>, n: nat)
    ensures CutSoFar(unique, [], 0.0, n)
    ensures unique == [] ==> CutInto(unique, [], n)
  {
  }

  lemma AllCut(unique: seq<string>, chunks: seq<seq<string>>, index: real, n: nat)
    requires CutSoFar(unique, chunks, index, n) && index >= |unique| as real
    ensures CutInto(unique, chunks, n)
  {
    PastTheEnd(unique, index);
  }

  /** How many keys the first pass of the loop deletes when the chunk size is below one. */
  function FirstPass(unique: seq<string>, size: real): (k: nat)
    ensures k <= |unique|
  {
    if Truncate(size) < 0 then Position(|unique|, size) else 0
  }

  /** A chunk of at least one moves on by at least one position; the slices meet end to end. */
  lemma ChunkMoves(s: seq<string>, index: real, size: real)
    requires 0.0 <= index < |s| as real && size >= 1.0
    ensures Position(|s|, index) < Position(|s|, index + size)
    ensures Position(|s|, index) == index.Floor
    ensures Slice(s, index, index + size) == s[Position(|s|, index)..Position(|s|, index + size)]
    ensures (index + size).Floor >= index.Floor + 1
  {
    FloorGrows(index, size);
  }

  lemma FloorGrows(x: real, d: real)
    requires d >= 1.0
    ensures (x + d).Floor >= x.Floor + 1
  {
    var y := x + d;
    assert (x.Floor + 1) as real <= y;
    assert y < y.Floor as real + 1.0;
  }

  /** Below one the second pass finds nothing, if the first found something at all. */
  lemma SecondPassEmpty(s: seq<string>, size: real)
    requires size < 1.0
    ensures Slice(s, 0.0, size) == s[..FirstPass(s, size)]
    ensures Truncate(size) < 0 ==> Slice(s, size, size + size) == []
    ensures s != [] ==> FirstPass(s, size) < |s|
    ensures FirstPass(s, size) > 0 ==> Truncate(size) < 0
  {
    assert Position(|s|, 0.0) == 0;
    if size < 0.0 {
      FloorGrowsDown(-size);
    }
  }

  lemma FloorGrowsDown(x: real)
    requires x > 0.0
    ensures (x + x).Floor >= x.Floor >= 0
  {
    var y := x + x;
    assert x.Floor as real <= y;
    assert y < y.Floor as real + 1.0;
  }

  /** `deleteKeys` deletes the named keys of every cache exactly when the chunk is at least one or nothing is named. */
  lemma DeletesAllExactly(keys: seq<string>, size: real)
    ensures var named := ToSet(keys) - {""};
            && ((forall values :: DeleteOutcome(values, keys, size).0 == values - named) <==> size >= 1.0 || named == {})
            && ((forall values :: DeleteOutcome(values, keys, size).1 == Ok(|values.Keys * named|)) <==> size >= 1.0 || named == {})
  {
    var unique := UniqueStrings(keys);
    UniqueStringsKeepsFirsts(keys);
    if unique != [] {
      var last := unique[|unique| - 1];
      assert last in ToSet(unique);
      if size < 1.0 {
        SecondPassEmpty(unique, size);
        var values := map[last := ""];
        assert last !in unique[..FirstPass(unique, size)];
        assert last in DeleteOutcome(values, keys, size).0 && last !in Without(values, NonEmpty(keys));
        assert DeleteOutcome(values, keys, size).1.Err?;
      }
    }
  }

  /**
   * With a chunk below one and something named, the answer is an error, and only from -1 down is anything deleted: all but
   * the last that many named keys, in the order of their first occurrence.
   */
  lemma BelowOneDeletesExactly(values: map<string, string>, keys: seq<string>, size: real)
    requires size < 1.0 && UniqueStrings(keys) != []
    ensures var (n, spared) := (|UniqueStrings(keys)|, (-size).Floor);
            DeleteOutcome(values, keys, size) ==
            (values - ToSet(UniqueStrings(keys)[..if size > -1.0 || spared >= n then 0 else n - spared]), Err(NoArguments))
  {
    hide UniqueStrings, ToSet;
    assert size < 0.0 ==> Truncate(size) == -(-size).Floor;
  }

  /** The cache lost some of these keys, and nothing else. */
  ghost predicate OnlyLost(before: map<string, string>, after: map<string, string>, keys: set<string>) {
    && (forall k | k in after :: k in before && after[k] == before[k])
    && (forall k | k in before && k !in keys :: k in after)
  }

  lemma NothingLost(values: map<string, string>, keys: set<string>)
    ensures OnlyLost(values, values, keys)
  {
  }

  lemma SomeLost(values: map<string, string>, gone: set<string>, keys: set<string>)
    requires gone <= keys
    ensures OnlyLost(values, Without(values, gone), keys)
  {
  }

  lemma LossesAdd(a: map<string, string>, b: map<string, string>, c: map<string, string>, first: set<string>, second: set<string>)
    requires OnlyLost(a, b, first) && OnlyLost(b, c, second)
    ensures OnlyLost(a, c, first + second)
  {
  }

  /** The answer and effect of `deleteKeys` on some keys, whatever order they came in. */
  lemma OutcomeMeaning(values: map<string, string>, keys: seq<string>, size: real)
    ensures var (after, r) := DeleteOutcome(values, keys, size);
            if size >= 1.0 || NonEmpty(keys) == {} then
              after == Without(values, NonEmpty(keys)) && r == Ok(Hits(values, NonEmpty(keys)))
            else
              r.Err? && OnlyLost(values, after, NonEmpty(keys))
  {
    var unique := UniqueStrings(keys);
    UniqueStringsKeepsFirsts(keys);
    hide UniqueStrings, NonEmpty, Without, Hits;
    if unique == [] {
      assert ToSet(unique) == {};
    } else {
      assert unique[0] in ToSet(unique);
      SomeLost(values, ToSet(unique[..FirstPass(unique, size)]), NonEmpty(keys));
    }
  }

  // ---------------------------------------------------------------- what invalidation does

  /**
   * One namespace was invalidated: its keys and then its set are gone, counted; but a failing DEL leaves the set
   * and counts nothing.
   */
  ghost predicate OneInvalidated(values: map<string, string>, sets: map<string, set<string>>, name: string, size: real,
                                 values': map<string, string>, sets': map<string, set<string>>, deleted: nat) {
    var keys := RegisteredUnder(sets, name) - {""};
    if size >= 1.0 || keys == {} then
      values' == Without(values, keys) && deleted == Hits(values, keys) && sets' == sets - {name}
    else
      deleted == 0 && sets' == sets && OnlyLost(values, values', keys)
  }

  /**
   * Namespaces were invalidated. With a chunk of at least one, what one deletion of every key registered under any
   * of them would delete is gone, each key counted once. Below one every namespace that has keys keeps its set,
   * nothing is counted, and still nothing else goes.
   */
  ghost predicate Invalidated(values: map<string, string>, sets: map<string, set<string>>, names: set<string>, size: real,
                              values': map<string, string>, sets': map<string, set<string>>, deleted: nat) {
    var keys := Registered(sets, names);
    if size >= 1.0 then
      values' == Without(values, keys) && deleted == Hits(values, keys) && sets' == sets - names
    else
      deleted == 0 && sets' == sets - Keyless(sets, names) && OnlyLost(values, values', keys)
  }

  /** Namespaces under which no key is registered. */
  function Keyless(sets: map<string, set<string>>, names: set<string>): set<string> {
    set n | n in names && RegisteredUnder(sets, n) - {""} == {}
  }

  // ---------------------------------------------------------------- the service

  class NamespacedCache {
    /** Cached texts by key, and the keys registered under each namespace. */
    var values: map<string, string>
    var sets: map<string, set<string>>
    /** The DEL commands sent, each with its keys. */
    var sent: seq<seq<string>>

    /** One DEL command: answers how many of the keys existed, and fails without keys. */
    method Del(keys: seq<string>) returns (r: Result<nat, CommandError>)
      modifies this`values, this`sent
      ensures sent == old(sent) + [keys]
      ensures keys == [] ==> r == Err(NoArguments) && values == old(values)
      ensures keys != [] ==> values == Without(old(values), ToSet(keys)) && r == Ok(Hits(old(values), ToSet(keys)))
    {
      sent := sent + [keys];
      if |keys| == 0 {
        return Err(NoArguments);
      }
      r := Ok(|values.Keys * ToSet(keys)|);
      values := values - ToSet(keys);
    }

    /** The members of a set, in an order the caller cannot rely on. */
    method Members(namespace: string) returns (keys: seq<string>)
      ensures ToSet(keys) == RegisteredUnder(sets, namespace)
    {
      keys := [];
      var left := RegisteredUnder(sets, namespace);
      while left != {}
        invariant ToSet(keys) + left == RegisteredUnder(sets, namespace)
        decreases left
      {
        var k :| k in left;
        ghost var before := keys;
        keys, left := keys + [k], left - {k};
        assert ToSet(keys) == ToSet(before) + {k};
      }
    }

    /**
     * Deletes the named keys chunk by chunk, with whatever chunk size is configured. When that is a whole number, or
     * with nothing configured 200, the commands sent carry that many keys each, the last one the rest.
     */
    method DeleteKeys(keys: seq<string>, configured: Option<real>) returns (r: Result<nat, CommandError>)
      modifies this`values, this`sent
      ensures (values, r) == DeleteOutcome(old(values), keys, ChunkSize(configured))
      ensures old(sent) <= sent
      ensures forall n: nat | n >= 1 && n as real == (if configured.Some? && configured.value != 0.0 then configured.value else 200.0) ::
                CutInto(UniqueStrings(keys), sent[|old(sent)|..], n)
    {
      var size := ChunkSize(configured);
      var unique := UniqueStrings(keys);
      UniqueStringsKeepsFirsts(keys);
      hide Without, Hits, UniqueStrings, ToSet, Position, Truncate, Slice;
      NothingDeleted(values);
      EmptyPrefix(unique);
      ghost var n: nat := if size >= 1.0 && size.Floor as real == size then size.Floor else 0;
      NothingCut(unique, n);
      hide CutSoFar, CutInto;
      if |unique| == 0 {
        assert sent[|old(sent)|..] == [];
        return Ok(0);
      }
      var deleted := 0;
      var index := 0.0;
      while index < |unique| as real
        invariant size >= 1.0 ==> index >= 0.0
        invariant size >= 1.0 ==> values == Without(old(values), ToSet(unique[..Position(|unique|, index)]))
        invariant size >= 1.0 ==> deleted == Hits(old(values), ToSet(unique[..Position(|unique|, index)]))
        invariant size < 1.0 ==> index == 0.0 || (index == size && Truncate(size) < 0)
        invariant size < 1.0 ==> values == if index == 0.0 then old(values) else Without(old(values), ToSet(unique[..FirstPass(unique, size)]))
        invariant old(sent) <= sent
        invariant n > 0 ==> CutSoFar(unique, sent[|old(sent)|..], index, n)
        decreases if size >= 1.0 then |unique| - index.Floor else if index == 0.0 then 1 else 0
      {
        var chunk := Slice(unique, index, index + size);
        if size >= 1.0 {
          ChunkMoves(unique, index, size);
          ChunkExtends(unique, Position(|unique|, index), Position(|unique|, index + size));
          DeletionsAdd(old(values), ToSet(unique[..Position(|unique|, index)]), ToSet(chunk));
        } else {
          SecondPassEmpty(unique, size);
          assert index == 0.0 ==> index + size == size;
        }
        if n > 0 {
          NextCut(unique, sent[|old(sent)|..], index, n);
        }
        ghost var before := sent;
        var removed := Del(chunk);
        assert sent[|old(sent)|..] == before[|old(sent)|..] + [chunk];
        if removed.Err? {
          return Err(removed.error);
        }
        deleted := deleted + removed.value;
        index := index + size;
      }
      PastTheEnd(unique, index);
      if n > 0 {
        AllCut(unique, sent[|old(sent)|..], index, n);
      }
      r := Ok(deleted);
    }

    /** One namespace: its keys, then its set; a failing DEL is logged, answered with zero, and leaves the set. */
    method InvalidateNamespace(namespace: string, configured: Option<real>) returns (deleted: nat)
      modifies this
      ensures old(sent) <= sent
      ensures OneInvalidated(old(values), old(sets), namespace, ChunkSize(configured), values, sets, deleted)
    {
      hide DeleteOutcome, Without, Hits, OnlyLost, ChunkSize, RegisteredUnder;
      var keys := Members(namespace);
      OutcomeMeaning(values, keys, ChunkSize(configured));
      var removed := DeleteKeys(keys, configured);
      if removed.Err? {
        return 0;
      }
      sets := sets - {namespace};
      return removed.value;
    }

    /** Invalidates the namespaces one after another; order and repetition of the names do not matter. */
    method InvalidateNamespaces(namespaces: seq<string>, configured: Option<real>) returns (deleted: nat)
      modifies this
      ensures old(sent) <= sent
      ensures Invalidated(old(values), old(sets), NonEmpty(namespaces), ChunkSize(configured), values, sets, deleted)
    {
      var unique := UniqueStrings(namespaces);
      UniqueStringsKeepsFirsts(namespaces);
      NoneInvalidated(values, sets, unique, ChunkSize(configured));
      deleted := 0;
      hide Invalidated, OneInvalidated, UniqueStrings, ToSet, NonEmpty, ChunkSize;
      var i := 0;
      while i < |unique|
        invariant 0 <= i <= |unique|
        invariant old(sent) <= sent
        invariant Invalidated(old(values), old(sets), ToSet(unique[..i]), ChunkSize(configured), values, sets, deleted)
      {
        ghost var values1, sets1 := values, sets;
        var removed := InvalidateNamespace(unique[i], configured);
        NextInvalidated(old(values), old(sets), unique, i, ChunkSize(configured), values1, sets1, deleted, values, sets, removed);
        deleted := deleted + removed;
        i := i + 1;
      }
      assert unique[..|unique|] == unique;
    }
  }

  lemma NoneInvalidated(values: map<string, string>, sets: map<string, set<string>>, names: seq<string>, size: real)
    ensures Invalidated(values, sets, ToSet(names[..0]), size, values, sets, 0)
  {
    NothingDeleted(values);
    NoNamespaces(sets, names);
    NothingLost(values, {});
  }

  /** One namespace more. */
  lemma NextInvalidated(values: map<string, string>, sets: map<string, set<string>>, names: seq<string>, i: nat, size: real,
                        values1: map<string, string>, sets1: map<string, set<string>>, first: nat,
                        values2: map<string, string>, sets2: map<string, set<string>>, second: nat)
    requires i < |names| && Distinct(names)
    requires Invalidated(values, sets, ToSet(names[..i]), size, values1, sets1, first)
    requires OneInvalidated(values1, sets1, names[i], size, values2, sets2, second)
    ensures Invalidated(values, sets, ToSet(names[..i + 1]), size, values2, sets2, first + second)
  {
    hide Without, Hits, ToSet, Registered, RegisteredUnder, Keyless, OnlyLost;
    var keys, done := RegisteredUnder(sets, names[i]) - {""}, Registered(sets, ToSet(names[..i]));
    if size >= 1.0 {
      RegisteredGrows(sets, names, i, sets1);
      DeletionsAdd(values, done, keys);
    } else {
      KeylessGrows(sets, names, i, sets1);
      NothingDeleted(values1);
      NothingLost(values1, keys);
      LossesAdd(values, values1, values2, done, keys);
    }
  }

  lemma EmptyPrefix(unique: seq<string>)
    ensures ToSet(unique[..0]) == {} && Position(|unique|, 0.0) == 0
    ensures unique == [] ==> ToSet(unique) == {}
  {
  }

  lemma PastTheEnd(unique: seq<string>, index: real)
    requires index >= |unique| as real
    ensures Position(|unique|, index) == |unique| && unique[..|unique|] == unique
  {
  }

  lemma NoNamespaces(sets: map<string, set<string>>, names: seq<string>)
    ensures ToSet(names[..0]) == {} && Registered(sets, ToSet(names[..0])) == {} && Keyless(sets, ToSet(names[..0])) == {}
    ensures sets - {} == sets
  {
  }

  lemma NextName(names: seq<string>, i: nat)
    requires i < |names| && Distinct(names)
    ensures ToSet(names[..i + 1]) == ToSet(names[..i]) + {names[i]} && names[i] !in ToSet(names[..i])
  {
    assert names[..i + 1] == names[..i] + [names[i]];
  }

  /** What is left of the sets after `i` names still holds the next one untouched. */
  lemma RegisteredGrows(sets: map<string, set<string>>, names: seq<string>, i: nat, left: map<string, set<string>>)
    requires i < |names| && Distinct(names) && left == sets - ToSet(names[..i])
    ensures RegisteredUnder(left, names[i]) == RegisteredUnder(sets, names[i])
    ensures Registered(sets, ToSet(names[..i + 1])) == Registered(sets, ToSet(names[..i])) + (RegisteredUnder(sets, names[i]) - {""})
    ensures left - {names[i]} == sets - ToSet(names[..i + 1])
  {
    NextName(names, i);
  }

  lemma KeylessGrows(sets: map<string, set<string>>, names: seq<string>, i: nat, left: map<string, set<string>>)
    requires i < |names| && Distinct(names) && left == sets - Keyless(sets, ToSet(names[..i]))
    ensures RegisteredUnder(left, names[i]) == RegisteredUnder(sets, names[i])
    ensures Registered(sets, ToSet(names[..i + 1])) == Registered(sets, ToSet(names[..i])) + (RegisteredUnder(sets, names[i]) - {""})
    ensures if RegisteredUnder(sets, names[i]) - {""} == {} then left - {names[i]} == sets - Keyless(sets, ToSet(names[..i + 1]))
            else left == sets - Keyless(sets, ToSet(names[..i + 1]))
  {
    NextName(names, i);
    var before, after := Keyless(sets, ToSet(names[..i])), Keyless(sets, ToSet(names[..i + 1]));
    assert after == if RegisteredUnder(sets, names[i]) - {""} == {} then before + {names[i]} else before;
  }
}
