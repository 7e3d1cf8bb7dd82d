/** Python's insertion-ordered `dict`. */
module OrderedDicts {
  import opened Collections

  datatype Dict<K(==), V> = Dict(keys: seq<K>, values: map<K, V>) {

    ghost predicate Valid() {
      Distinct(keys) && Elements(keys) == values.Keys
    }

    /** A new key goes to the end; assigning to a present key keeps its position. */
    function Set(k: K, v: V): Dict<K, V> {
      Dict(if k in values then keys else keys + [k], values[k := v])
    }

    function GetOr(k: K, default: V): V {
      if k in values then values[k] else default
    }
  }

  type OrderedDict<K(==), V> = d: Dict<K, V> | d.Valid() witness Dict([], map[])

  function Empty<K, V>(): OrderedDict<K, V> {
    Dict([], map[])
  }

  function Put<K, V>(d: OrderedDict<K, V>, k: K, v: V): (r: OrderedDict<K, V>)
    ensures r.values == d.values[k := v]
    ensures r.keys == if k in d.values then d.keys else d.keys + [k]
  {
    d.Set(k, v)
  }

  /** Key-value pairs in iteration order. */
  function Items<K, V>(d: OrderedDict<K, V>): seq<(K, V)> {
    seq(|d.keys|, i requires 0 <= i < |d.keys| =>
      assert d.keys[i] in Elements(d.keys); (d.keys[i], d.values[d.keys[i]]))
  }

  lemma ItemsAreDistinct<K, V>(d: OrderedDict<K, V>)
    ensures Distinct(Items(d))
  {
    assert forall i :: 0 <= i < |Items(d)| ==> Items(d)[i].0 == d.keys[i];
  }

  lemma ItemsSpec<K, V>(d: OrderedDict<K, V>)
    ensures forall kv: (K, V) :: kv in Items(d) <==> kv.0 in d.values && d.values[kv.0] == kv.1
  {
    var items := Items(d);
    forall kv: (K, V)
      ensures kv in items <==> kv.0 in d.values && d.values[kv.0] == kv.1
    {
      if kv in items {
        var i :| 0 <= i < |items| && items[i] == kv;
        assert d.keys[i] in Elements(d.keys);
      }
      if kv.0 in d.values && d.values[kv.0] == kv.1 {
        assert kv.0 in Elements(d.keys);
        var i :| 0 <= i < |d.keys| && d.keys[i] == kv.0;
        assert items[i] == kv;
      }
    }
  }
}

/** The records every stage exchanges (models/schema.py). Times are integer ticks. */
module Schema {
  import opened Collections
  import opened OrderedDicts

  type EventId = string

  datatype SourceSystem = CloudWatch | Tomcat | GcpLogging | Oracle | MySql | Postgres

  datatype LogEvent = LogEvent(
    id: EventId,
    source: SourceSystem,
    timestamp: int,
    message: string,
    identifiers: OrderedDict<string, string>)

  datatype RelationType = IdMatch | TimeWindow | SemanticSimilarity

  datatype CorrelationEdge = CorrelationEdge(
    source: EventId,
    target: EventId,
    relation: RelationType,
    confidence: real,
    matchedOn: string)

  /** The tunable constants of config.py. */
  datatype Settings = Settings(window: int, bucket: int, maxBatch: int, minConfidence: real)

  function Timestamp(e: LogEvent): int {
    e.timestamp
  }

  ghost function Ids(events: seq<LogEvent>): set<EventId> {
    set e | e in events :: e.id
  }

  /** Every event gets its own uuid4, so ids never repeat within a run. */
  ghost predicate DistinctIds(events: seq<LogEvent>) {
    forall i, j :: 0 <= i < j < |events| ==> events[i].id != events[j].id
  }

  lemma SameIdSameEvent(events: seq<LogEvent>, a: LogEvent, b: LogEvent)
    requires DistinctIds(events) && a in events && b in events
    ensures a.id == b.id <==> a == b
  {
  }

  /** Any rearrangement keeps ids distinct. */
  lemma RearrangedIds(events: seq<LogEvent>, other: seq<LogEvent>)
    requires DistinctIds(events) && multiset(events) == multiset(other)
    ensures DistinctIds(other)
    ensures Ids(other) == Ids(events)
  {
    DistinctPermutation(events, other);
    MultisetMembers(events, other);
    forall i, j | 0 <= i < j < |other|
      ensures other[i].id != other[j].id
    {
      SameIdSameEvent(events, other[i], other[j]);
    }
  }

  // ---- sorted((a, b)): the canonical key of an unordered pair ----

  predicate StringLeq(a: string, b: string) {
    a == [] || (b != [] && (a[0] < b[0] || (a[0] == b[0] && StringLeq(a[1..], b[1..]))))
  }

  lemma {:induction false} StringLeqTotal(a: string, b: string)
    ensures StringLeq(a, b) || StringLeq(b, a)
    ensures StringLeq(a, b) && StringLeq(b, a) ==> a == b
  {
    if a == [] || b == [] || a[0] != b[0] {
    } else {
      StringLeqTotal(a[1..], b[1..]);
      assert a == [a[0]] + a[1..] && b == [b[0]] + b[1..];
    }
  }

  function PairKey(a: string, b: string): (string, string) {
    if StringLeq(a, b) then (a, b) else (b, a)
  }

  /** Two pairs have the same key exactly when they are the same unordered pair. */
  lemma PairKeyIsUnordered(a: string, b: string, c: string, d: string)
    ensures PairKey(a, b) == PairKey(c, d) <==> (a == c && b == d) || (a == d && b == c)
  {
    StringLeqTotal(a, b);
  }

  function EdgePair(e: CorrelationEdge): (EventId, EventId) {
    PairKey(e.source, e.target)
  }

  ghost function PairsOf(edges: seq<CorrelationEdge>): set<(EventId, EventId)> {
    set e | e in edges :: EdgePair(e)
  }

  lemma EdgeSetsSnoc(edges: seq<CorrelationEdge>, edge: CorrelationEdge)
    ensures PairsOf(edges + [edge]) == PairsOf(edges) + {EdgePair(edge)}
    ensures Endpoints(edges + [edge]) == Endpoints(edges) + {edge.source} + {edge.target}
  {
  }

  function Endpoints(edges: seq<CorrelationEdge>): set<EventId> {
    (set e | e in edges :: e.source) + (set e | e in edges :: e.target)
  }
}
