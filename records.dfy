/** Values shared by the whole planner: sites, port inventories, per-site results,
    connections, and the ordered string-keyed records the planner stores them in.

    A JavaScript object whose keys are not integer-like remembers the order in which its
    keys were first written, and a later write to a key replaces the value in place.
    `Rec` models exactly that: `keys` is the insertion order, `vals` the current values.
    (Integer-like keys such as "42" would instead be iterated first, in numeric order.) */
module Records {

  type Site = string

  datatype Option<T> = None | Some(value: T)

  datatype Rec<V> = Rec(keys: seq<Site>, vals: map<Site, V>)
  {
    /** Keys are listed once each, and exactly the keys that hold a value are listed. */
    ghost predicate Valid() {
      && (forall i, j :: 0 <= i < j < |keys| ==> keys[i] != keys[j])
      && (forall k :: k in vals <==> k in keys)
    }

    function Get(k: Site): Option<V> {
      if k in vals then Some(vals[k]) else None
    }

    /** `obj[k] = v`: a new key goes to the end of the order, an old key keeps its place. */
    function Put(k: Site, v: V): (r: Rec<V>)
      requires Valid()
      ensures r.Valid()
      ensures r.Get(k) == Some(v)
      ensures forall k' :: k' != k ==> r.Get(k') == Get(k')
      ensures k in vals ==> r.keys == keys
      ensures k !in vals ==> r.keys == keys + [k]
    {
      if k in vals then Rec(keys, vals[k := v]) else Rec(keys + [k], vals[k := v])
    }
  }

  function EmptyRec<V>(): (r: Rec<V>)
    ensures r.Valid() && r.keys == [] && r.vals == map[]
  {
    Rec([], map[])
  }

  /** `Object.values(r)`: the values in key order. */
  function Values(r: Rec<int>): (vs: seq<int>)
    requires r.Valid()
    ensures |vs| == |r.keys|
    ensures forall i :: 0 <= i < |vs| ==> vs[i] == r.vals[r.keys[i]]
  {
    seq(|r.keys|, i requires 0 <= i < |r.keys| => r.vals[r.keys[i]])
  }

  /** Left-to-right sum, `reduce((acc, v) => acc + v, 0)`. */
  function Sum(s: seq<int>): int {
    if s == [] then 0 else Sum(s[..|s| - 1]) + s[|s| - 1]
  }

  function Max(a: int, b: int): int {
    if a >= b then a else b
  }

  function Min(a: int, b: int): int {
    if a <= b then a else b
  }

  /** `Math.ceil(a / d)` for a positive divisor: the least integer whose multiple of `d`
      reaches `a`. (Dafny's `/` rounds down when the divisor is positive.) */
  function CeilDiv(a: int, d: int): (q: int)
    requires d > 0
    ensures d * q >= a && d * (q - 1) < a
  {
    -((-a) / d)
  }

  /** A port inventory, or a number of ports used: 100-class and 400-class counts. */
  datatype Ports = Ports(g100: int, g400: int)

  /** One sized site (`Result` in the source). `externalRequirements` is the site's row
      of the requirement matrix, or None where the source stores `undefined` because
      the site never appears in a bandwidth tuple. */
  datatype SiteResult = SiteResult(
    city: Site,
    numCustomers: int,
    t1Routes: int,
    t2Routes: int,
    external: Ports,
    internal: Ports,
    externalRequirements: Option<Rec<int>>)

  datatype Connection = Connection(from: Site, to: Site, g100PortsUsed: int, g400PortsUsed: int)

  datatype Topology = Topology(nodes: seq<SiteResult>, connections: seq<Connection>)

  /** A requirement matrix: site -> (peer -> bandwidth). */
  type Matrix = map<Site, Rec<int>>

  ghost predicate ValidMatrix(m: Matrix) {
    forall a | a in m :: m[a].Valid()
  }
}
