/** Event studies: selecting events, finding their trading windows, accounting for every exclusion. */
module EventWindows {
  import opened Prelude
  import opened Sorting

  /** ISO dates compare as texts the way days compare as numbers. */
  type Day = int

  // ---------------------------------------------------------------- binary against linear search

  predicate Ascending(days: seq<Day>) {
    forall i, j | 0 <= i < j < |days| :: days[i] <= days[j]
  }

  /** `findIndex(d => d >= target)`: the first index, looking one by one. */
  function FindIndex(days: seq<Day>, target: Day): int {
    if days == [] then -1
    else if days[0] >= target then 0
    else
      var i := FindIndex(days[1..], target);
      if i < 0 then -1 else i + 1
  }

  lemma {:induction false} FindIndexMeaning(days: seq<Day>, target: Day)
    ensures var i := FindIndex(days, target);
            && -1 <= i < |days|
            && (i >= 0 ==> days[i] >= target)
            && (forall j | 0 <= j < (if i < 0 then |days| else i) :: days[j] < target)
  {
    if days != [] && days[0] < target {
      FindIndexMeaning(days[1..], target);
      forall j | 0 <= j < (if FindIndex(days, target) < 0 then |days| else FindIndex(days, target)) ensures days[j] < target {
        if j > 0 {
          assert days[1..][j - 1] == days[j];
        }
      }
    }
  }

  lemma {:induction false} FirstIndexIs(days: seq<Day>, target: Day, k: nat)
    requires k <= |days| && (forall j | 0 <= j < k :: days[j] < target) && (k < |days| ==> days[k] >= target)
    ensures FindIndex(days, target) == if k < |days| then k else -1
  {
    if k > 0 {
      FirstIndexIs(days[1..], target, k - 1);
    }
  }

  /** `lowerBound`: on ascending days the binary search answers what the linear search answers, -1 included. */
  method LowerBound(days: seq<Day>, target: Day) returns (r: int)
    requires Ascending(days)
    ensures r == FindIndex(days, target)
  {
    var low, high := 0, |days|;
    while low < high
      invariant 0 <= low <= high <= |days|
      invariant forall j | 0 <= j < low :: days[j] < target
      invariant forall j | high <= j < |days| :: target <= days[j]
    {
      var middle := (low + high) / 2;
      if days[middle] < target {
        low := middle + 1;
      } else {
        high := middle;
      }
    }
    FirstIndexIs(days, target, low);
    r := if low < |days| then low else -1;
  }

  // ---------------------------------------------------------------- selecting events

  datatype Event = Event(code: string, date: Day)

  /** How keys are written, hashed and compared. */
  datatype Keys = Keys(text: Event -> string, hash: string -> string, le: (string, string) -> bool)

  ghost predicate GoodKeys(k: Keys) {
    TotalOrder(k.le) && forall e, f | k.text(e) == k.text(f) :: e == f
  }

  /** The map keyed by event key, in insertion order. */
  function Unique(k: Keys, events: seq<Event>): seq<Event> {
    if events == [] then []
    else
      var before, last := Unique(k, events[..|events| - 1]), events[|events| - 1];
      var i := IndexOfKey(k, before, k.text(last));
      if i < 0 then before + [last] else before[i := last]
  }

  function IndexOfKey(k: Keys, events: seq<Event>, key: string): (i: int)
    ensures -1 <= i < |events|
    ensures i >= 0 ==> k.text(events[i]) == key
    ensures i < 0 ==> forall j | 0 <= j < |events| :: k.text(events[j]) != key
  {
    if events == [] then -1
    else if k.text(events[0]) == key then 0
    else
      var i := IndexOfKey(k, events[1..], key);
      if i < 0 then -1 else i + 1
  }

  method DeduplicateEvents(k: Keys, events: seq<Event>) returns (unique: seq<Event>)
    ensures unique == Unique(k, events)
  {
    unique := [];
    for n := 0 to |events|
      invariant unique == Unique(k, events[..n])
    {
      assert events[..n + 1][..n] == events[..n];
      var i := IndexOfKey(k, unique, k.text(events[n]));
      if i < 0 {
        unique := unique + [events[n]];
      } else {
        unique := unique[i := events[n]];
      }
    }
    assert events[..|events|] == events;
  }

  /** Deduplication keeps every event exactly once. */
  lemma {:induction false} UniqueKeepsEachOnce(k: Keys, events: seq<Event>)
    requires GoodKeys(k)
    ensures Distinct(Unique(k, events)) && forall e :: e in Unique(k, events) <==> e in events
  {
    if events != [] {
      var n := |events| - 1;
      UniqueKeepsEachOnce(k, events[..n]);
      var before, last := Unique(k, events[..n]), events[n];
      assert events == events[..n] + [last];
      var i := IndexOfKey(k, before, k.text(last));
      if i >= 0 {
        assert before[i] == last;
        assert before[i := last] == before;
      } else {
        assert last !in before;
      }
    }
  }

  /** The comparator: by hash, then by key. */
  function ByHash(k: Keys): (Event, Event) -> bool {
    (e: Event, f: Event) =>
      var (a, b) := (k.text(e), k.text(f));
      if k.hash(a) != k.hash(b) then k.le(k.hash(a), k.hash(b)) else k.le(a, b)
  }

  lemma ByHashIsTotal(k: Keys)
    requires GoodKeys(k)
    ensures TotalPreorder(ByHash(k)) && forall e, f | ByHash(k)(e, f) && ByHash(k)(f, e) :: e == f
  {
    forall e, f ensures ByHash(k)(e, f) || ByHash(k)(f, e) {
      assert k.le(k.hash(k.text(e)), k.hash(k.text(f))) || k.le(k.hash(k.text(f)), k.hash(k.text(e)));
      assert k.le(k.text(e), k.text(f)) || k.le(k.text(f), k.text(e));
    }
    forall e, f, g | ByHash(k)(e, f) && ByHash(k)(f, g) ensures ByHash(k)(e, g) {
      HashOrderChains(k, k.text(e), k.text(f), k.text(g));
    }
    forall e, f | ByHash(k)(e, f) && ByHash(k)(f, e) ensures e == f {
    }
  }

  lemma HashOrderChains(k: Keys, a: string, b: string, c: string)
    requires GoodKeys(k)
    requires if k.hash(a) != k.hash(b) then k.le(k.hash(a), k.hash(b)) else k.le(a, b)
    requires if k.hash(b) != k.hash(c) then k.le(k.hash(b), k.hash(c)) else k.le(b, c)
    ensures if k.hash(a) != k.hash(c) then k.le(k.hash(a), k.hash(c)) else k.le(a, c)
  {
    var (x, y, z) := (k.hash(a), k.hash(b), k.hash(c));
    assert k.le(x, y) && k.le(y, x) ==> x == y;
    assert k.le(x, y) && k.le(y, z) ==> k.le(x, z);
    assert k.le(a, b) && k.le(b, c) ==> k.le(a, c);
  }

  function Take<T>(s: seq<T>, maximum: nat): seq<T> {
    if maximum < |s| then s[..maximum] else s
  }

  /** `deterministicSample` over the deduplicated events. */
  function Select(k: Keys, events: seq<Event>, maximum: nat): seq<Event> {
    Take(Sort(Unique(k, events), ByHash(k)), maximum)
  }

  /** What is selected depends only on which events were extracted, not on their order or repetition. */
  lemma SelectionDependsOnSet(k: Keys, a: seq<Event>, b: seq<Event>, maximum: nat)
    requires GoodKeys(k) && forall e :: e in a <==> e in b
    ensures Select(k, a, maximum) == Select(k, b, maximum)
  {
    UniqueKeepsEachOnce(k, a);
    UniqueKeepsEachOnce(k, b);
    SameMembersPermute(Unique(k, a), Unique(k, b));
    ByHashIsTotal(k);
    SortIsCanonical(Unique(k, a), Unique(k, b), ByHash(k));
  }

  /** A smaller maximum selects a prefix of what a larger one selects; selected events were extracted, once each. */
  lemma SmallerSelectionIsPrefix(k: Keys, events: seq<Event>, smaller: nat, larger: nat)
    requires GoodKeys(k) && smaller <= larger
    ensures Select(k, events, smaller) <= Select(k, events, larger)
    ensures Distinct(Select(k, events, larger)) && forall e | e in Select(k, events, larger) :: e in events
  {
    UniqueKeepsEachOnce(k, events);
    SortPermutes(Unique(k, events), ByHash(k));
    var unique, sorted := Unique(k, events), Sort(Unique(k, events), ByHash(k));
    hide Unique, ByHash, Sort;
    PermutedDistinct(unique, sorted);
    forall e | e in Select(k, events, larger) ensures e in events {
      assert e in multiset(sorted);
      assert e in multiset(unique);
    }
  }

  /** `f` stands before `e`: its key has the smaller hash, or the same hash and comes first itself. */
  predicate Ahead(k: Keys, f: Event, e: Event) {
    var (x, y) := (k.text(f), k.text(e));
    f != e && if k.hash(x) == k.hash(y) then k.le(x, y) else k.le(k.hash(x), k.hash(y))
  }

  /** The extracted events that stand before `e`. */
  function AllAhead(k: Keys, events: seq<Event>, e: Event): set<Event> {
    set f | f in events && Ahead(k, f, e)
  }

  lemma SelectionInOrder(k: Keys, events: seq<Event>, maximum: nat)
    requires GoodKeys(k)
    ensures var selected := Select(k, events, maximum);
            forall i, j | 0 <= i < j < |selected| :: Ahead(k, selected[i], selected[j]) && !Ahead(k, selected[j], selected[i])
  {
    SmallerSelectionIsPrefix(k, events, maximum, maximum);
    ByHashIsTotal(k);
    SortSorts(Unique(k, events), ByHash(k));
    var selected := Select(k, events, maximum);
    forall i, j | 0 <= i < j < |selected| ensures Ahead(k, selected[i], selected[j]) && !Ahead(k, selected[j], selected[i]) {
      assert ByHash(k)(selected[i], selected[j]);
    }
  }

  /** Without a limit all events are selected; with one, those among the first of them. */
  lemma WholeSelection(k: Keys, events: seq<Event>, maximum: nat)
    requires GoodKeys(k)
    ensures var all := Select(k, events, |events|);
            && Distinct(all) && (forall e :: e in all <==> e in events)
            && Select(k, events, maximum) == Take(all, maximum)
  {
    UniqueKeepsEachOnce(k, events);
    var unique := Unique(k, events);
    SortPermutes(unique, ByHash(k));
    var sorted := Sort(unique, ByHash(k));
    PermutedDistinct(unique, sorted);
    forall e ensures e in sorted <==> e in events {
      assert e in sorted <==> e in multiset(unique);
    }
    DistinctCardinality(sorted);
    SubsetCardinality(ToSet(sorted), ToSet(events));
    FewerMembers(events);
  }

  lemma {:induction false} FewerMembers(events: seq<Event>)
    ensures |ToSet(events)| <= |events|
  {
    if events != [] {
      var n := |events| - 1;
      FewerMembers(events[..n]);
      assert ToSet(events) == ToSet(events[..n]) + {events[n]};
    }
  }

  lemma AheadOf(k: Keys, all: seq<Event>, events: seq<Event>, i: nat)
    requires i < |all| && Distinct(all) && forall e :: e in all <==> e in events
    requires forall i, j | 0 <= i < j < |all| :: Ahead(k, all[i], all[j]) && !Ahead(k, all[j], all[i])
    ensures |AllAhead(k, events, all[i])| == i
  {
    assert AllAhead(k, events, all[i]) == ToSet(all[..i]);
    DistinctCardinality(all[..i]);
  }

  /** An event is selected exactly if it was extracted and fewer than `maximum` extracted events stand before it. */
  lemma SelectedExactly(k: Keys, events: seq<Event>, maximum: nat, e: Event)
    requires GoodKeys(k)
    ensures e in Select(k, events, maximum) <==> e in events && |AllAhead(k, events, e)| < maximum
  {
    WholeSelection(k, events, maximum);
    SelectionInOrder(k, events, |events|);
    var all := Select(k, events, |events|);
    if e in events {
      var i :| 0 <= i < |all| && all[i] == e;
      AheadOf(k, all, events, i);
      if i < maximum {
        assert Take(all, maximum)[i] == e;
      }
    }
  }
}
