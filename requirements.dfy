/** Requirement aggregation (`formatRequirements`): bandwidth tuples become a symmetric
    requirement matrix holding max(upload, download) per pair, plus each site's total. */
module Requirements {
  import opened Records

  /** One bandwidth tuple `[city1, city2, upload, download]`. */
  datatype Link = Link(a: Site, b: Site, up: int, down: int)

  predicate Names(l: Link, a: Site, b: Site) {
    (l.a == a && l.b == b) || (l.a == b && l.b == a)
  }

  predicate Mentions(links: seq<Link>, c: Site) {
    exists i :: 0 <= i < |links| && (links[i].a == c || links[i].b == c)
  }

  /** What the LAST tuple naming the unordered pair {a, b} asks for, if any tuple does:
      a later tuple for the same pair overwrites an earlier one. */
  function LastDemand(links: seq<Link>, a: Site, b: Site): Option<int> {
    if links == [] then None
    else
      var l := links[|links| - 1];
      if Names(l, a, b) then Some(Max(l.up, l.down)) else LastDemand(links[..|links| - 1], a, b)
  }

  /** The demand of a pair does not depend on which of the two sites is asked. */
  lemma {:induction false} LastDemandSymmetric(links: seq<Link>, a: Site, b: Site)
    ensures LastDemand(links, a, b) == LastDemand(links, b, a)
  {
    if links != [] {
      LastDemandSymmetric(links[..|links| - 1], a, b);
    }
  }

  /** A pair has a demand only if both of its sites are mentioned. */
  lemma {:induction false} LastDemandMentions(links: seq<Link>, a: Site, b: Site)
    requires LastDemand(links, a, b).Some?
    ensures Mentions(links, a) && Mentions(links, b)
  {
    var l := links[|links| - 1];
    if !Names(l, a, b) {
      var prefix := links[..|links| - 1];
      LastDemandMentions(prefix, a, b);
      var i :| 0 <= i < |prefix| && (prefix[i].a == a || prefix[i].b == a);
      var j :| 0 <= j < |prefix| && (prefix[j].a == b || prefix[j].b == b);
      assert links[i] == prefix[i] && links[j] == prefix[j];
    }
  }

  /** The key order a write of the pair (x, y) leaves in site `c`'s row, after `p`: the
      first write (`requirements[city1][city2]`) appends y to x's row, the second appends
      x to y's row, and a key already present keeps its place. */
  function AddPeers(p: seq<Site>, x: Site, y: Site, c: Site): seq<Site> {
    var p1 := if c == x && y !in p then p + [y] else p;
    if c == y && x !in p1 then p1 + [x] else p1
  }

  /** The key order of site `c`'s row: its peers in order of first mention. */
  function Peers(links: seq<Link>, c: Site): seq<Site> {
    if links == [] then []
    else
      var l := links[|links| - 1];
      AddPeers(Peers(links[..|links| - 1], c), l.a, l.b, c)
  }

  /** A site no tuple mentions has no peers. */
  lemma {:induction false} PeersUnmentioned(links: seq<Link>, c: Site)
    requires !Mentions(links, c)
    ensures Peers(links, c) == []
  {
    if links != [] {
      var prefix := links[..|links| - 1];
      assert !Mentions(prefix, c) by {
        forall i | 0 <= i < |prefix|
          ensures prefix[i].a != c && prefix[i].b != c
        {
          assert prefix[i] == links[i];
        }
      }
      PeersUnmentioned(prefix, c);
      assert links[|links| - 1].a != c && links[|links| - 1].b != c;
    }
  }

  /** The sum of a site's row, `Object.values(row).reduce((acc, bw) => acc + bw, 0)`. */
  function RowTotal(row: Rec<int>): int
    requires row.Valid()
  {
    Sum(Values(row))
  }

  /** `req` is what aggregating `links` yields: a row for exactly the mentioned sites, and
      in each row the demand of the last tuple naming the pair. */
  ghost predicate Aggregates(req: Matrix, links: seq<Link>) {
    && ValidMatrix(req)
    && (forall c :: c in req <==> Mentions(links, c))
    && (forall a, b | a in req :: req[a].Get(b) == LastDemand(links, a, b))
  }

  /** Each row of `req` lists its peers in order of first mention in `links`. */
  ghost predicate KeysInOrder(req: Matrix, links: seq<Link>) {
    forall c | c in req :: req[c].keys == Peers(links, c)
  }

  /** `after` is `req` with the tuple `l` recorded: the rows of both sites exist, both
      entries of the pair hold max(upload, download), and nothing else changed. */
  ghost predicate Recorded(req: Matrix, l: Link, after: Matrix) {
    && ValidMatrix(after)
    && (forall c :: c in after <==> c in req || c == l.a || c == l.b)
    && (forall a, b | a in after ::
          after[a].Get(b) == if Names(l, a, b) then Some(Max(l.up, l.down))
                             else if a in req then req[a].Get(b) else None)
  }

  /** The key order `l` leaves in every row of `after`: the peers it adds go after those
      of `req`. */
  ghost predicate KeysRecorded(req: Matrix, l: Link, after: Matrix) {
    forall c | c in after :: after[c].keys == AddPeers(if c in req then req[c].keys else [], l.a, l.b, c)
  }

  /** Writing both entries of a pair into rows that already exist. */
  lemma WritePair(created: Matrix, x: Site, y: Site, bw: int, after: Matrix)
    requires ValidMatrix(created) && x in created && y in created
    requires var half := created[x := created[x].Put(y, bw)];
             after == half[y := half[y].Put(x, bw)]
    ensures ValidMatrix(after) && forall c :: c in after <==> c in created
    ensures forall a, b | a in after ::
      after[a].Get(b) == if (a == x && b == y) || (a == y && b == x) then Some(bw) else created[a].Get(b)
  {
  }

  /** Writing both entries of a pair appends each site to the other's row when new. */
  lemma WritePairKeys(created: Matrix, x: Site, y: Site, bw: int, after: Matrix)
    requires ValidMatrix(created) && x in created && y in created
    requires var half := created[x := created[x].Put(y, bw)];
             after == half[y := half[y].Put(x, bw)]
    ensures forall c | c in after :: after[c].keys == AddPeers(created[c].keys, x, y, c)
  {
    var half := created[x := created[x].Put(y, bw)];
    assert half[x].keys == AddPeers(created[x].keys, x, y, x) || x == y;
  }

  /** `created` is `req` with an empty row added for each site of `l` that had none. */
  ghost predicate Created(req: Matrix, l: Link, created: Matrix) {
    && ValidMatrix(created)
    && (forall c :: c in created <==> c in req || c == l.a || c == l.b)
    && (forall c | c in req :: created[c] == req[c])
    && (forall c | c in created && c !in req :: created[c] == EmptyRec())
  }

  /** A created row holds what the old one held, and a new row holds nothing. */
  lemma CreatedGet(req: Matrix, l: Link, created: Matrix)
    requires ValidMatrix(req) && Created(req, l, created)
    ensures forall a, b | a in created :: created[a].Get(b) == if a in req then req[a].Get(b) else None
  {
    forall a, b | a in created
      ensures created[a].Get(b) == if a in req then req[a].Get(b) else None
    {
      if a !in req {
        assert created[a] == EmptyRec();
      }
    }
  }

  /** The source's four steps for one tuple: create each missing row, then write both
      entries. */
  lemma RecordLink(req: Matrix, l: Link, created: Matrix, after: Matrix)
    requires ValidMatrix(req) && Created(req, l, created)
    requires var bw := Max(l.up, l.down);
             var half := created[l.a := created[l.a].Put(l.b, bw)];
             after == half[l.b := half[l.b].Put(l.a, bw)]
    ensures Recorded(req, l, after)
  {
    CreatedGet(req, l, created);
    WritePair(created, l.a, l.b, Max(l.up, l.down), after);
    WrittenRecorded(req, l, created, after);
  }

  /** Rows grown by `created`, then the pair written: that is `l` recorded. */
  lemma WrittenRecorded(req: Matrix, l: Link, created: Matrix, after: Matrix)
    requires ValidMatrix(req) && Created(req, l, created)
    requires forall a, b | a in created :: created[a].Get(b) == if a in req then req[a].Get(b) else None
    requires ValidMatrix(after) && forall c :: c in after <==> c in created
    requires forall a, b | a in after ::
      after[a].Get(b) == if (a == l.a && b == l.b) || (a == l.b && b == l.a) then Some(Max(l.up, l.down))
                         else created[a].Get(b)
    ensures Recorded(req, l, after)
  {
  }

  /** The same four steps, for the key order of the rows. */
  lemma RecordLinkKeys(req: Matrix, l: Link, created: Matrix, after: Matrix)
    requires ValidMatrix(req) && Created(req, l, created)
    requires var bw := Max(l.up, l.down);
             var half := created[l.a := created[l.a].Put(l.b, bw)];
             after == half[l.b := half[l.b].Put(l.a, bw)]
    ensures KeysRecorded(req, l, after)
  {
    WritePairKeys(created, l.a, l.b, Max(l.up, l.down), after);
  }

  lemma AggregatesStep(req: Matrix, links: seq<Link>, l: Link, after: Matrix)
    requires Aggregates(req, links)
    requires Recorded(req, l, after)
    ensures Aggregates(after, links + [l])
  {
    var links' := links + [l];
    assert links'[..|links'| - 1] == links;
    assert links'[|links|] == l;
    forall c ensures c in after <==> Mentions(links', c) {
      if Mentions(links, c) {
        var k :| 0 <= k < |links| && (links[k].a == c || links[k].b == c);
        assert links'[k] == links[k];
      }
      if Mentions(links', c) && c != l.a && c != l.b {
        var k :| 0 <= k < |links'| && (links'[k].a == c || links'[k].b == c);
        assert links[k] == links'[k];
      }
    }
    forall a, b | a in after ensures after[a].Get(b) == LastDemand(links', a, b) {
      if !Names(l, a, b) && LastDemand(links, a, b).Some? {
        LastDemandMentions(links, a, b);
      }
    }
  }

  /** Recording one more tuple keeps every row's keys in order of first mention. */
  lemma KeysInOrderStep(req: Matrix, links: seq<Link>, l: Link, after: Matrix)
    requires Aggregates(req, links) && KeysInOrder(req, links)
    requires KeysRecorded(req, l, after)
    ensures KeysInOrder(after, links + [l])
  {
    var links' := links + [l];
    assert links'[..|links'| - 1] == links;
    forall c | c in after ensures after[c].keys == Peers(links', c) {
      if c !in req {
        PeersUnmentioned(links, c);
      }
    }
  }

  /** The requirement matrix holds a row for exactly the mentioned sites, each entry is the
      max(upload, download) of the last tuple naming that pair (so the matrix is symmetric),
      each row lists its peers in order of first mention, and each site's aggregate demand is the total of its row. */
  method FormatRequirements(links: seq<Link>) returns (requirements: Matrix, maxRequirement: map<Site, int>)
    ensures ValidMatrix(requirements)
    ensures forall c :: c in requirements <==> Mentions(links, c)
    ensures forall a, b | a in requirements :: requirements[a].Get(b) == LastDemand(links, a, b)
    ensures forall c | c in requirements :: requirements[c].keys == Peers(links, c)
    ensures forall c :: c in maxRequirement <==> c in requirements
    ensures forall c | c in requirements :: maxRequirement[c] == RowTotal(requirements[c])
  {
    requirements := Aggregate(links);
    maxRequirement := Totals(requirements);
  }

  /** The first loop of `formatRequirements`: record every tuple in turn. */
  method Aggregate(links: seq<Link>) returns (requirements: Matrix)
    ensures Aggregates(requirements, links) && KeysInOrder(requirements, links)
  {
    requirements := map[];
    for i := 0 to |links|
      invariant Aggregates(requirements, links[..i]) && KeysInOrder(requirements, links[..i])
    {
      var l := links[i];
      PrefixStep(links, i);
      ghost var before := requirements;
      var maxBW := Max(l.up, l.down);
      if l.a !in requirements {
        requirements := requirements[l.a := EmptyRec()];
      }
      if l.b !in requirements {
        requirements := requirements[l.b := EmptyRec()];
      }
      ghost var created := requirements;
      requirements := requirements[l.a := requirements[l.a].Put(l.b, maxBW)];
      requirements := requirements[l.b := requirements[l.b].Put(l.a, maxBW)];
      RecordLink(before, l, created, requirements);
      RecordLinkKeys(before, l, created, requirements);
      AggregatesStep(before, links[..i], l, requirements);
      KeysInOrderStep(before, links[..i], l, requirements);
    }
    assert links[..|links|] == links;
  }

  lemma PrefixStep(links: seq<Link>, i: int)
    requires 0 <= i < |links|
    ensures links[..i + 1] == links[..i] + [links[i]]
  {
  }

  /** The second loop of `formatRequirements`: each site's row total. */
  method Totals(requirements: Matrix) returns (maxRequirement: map<Site, int>)
    requires ValidMatrix(requirements)
    ensures forall c :: c in maxRequirement <==> c in requirements
    ensures forall c | c in requirements :: maxRequirement[c] == RowTotal(requirements[c])
  {
    maxRequirement := map[];
    var pending := requirements.Keys;
    while pending != {}
      invariant pending <= requirements.Keys
      invariant forall c :: c in maxRequirement <==> c in requirements && c !in pending
      invariant forall c | c in maxRequirement :: maxRequirement[c] == RowTotal(requirements[c])
      decreases pending
    {
      var c :| c in pending;
      maxRequirement := maxRequirement[c := RowTotal(requirements[c])];
      pending := pending - {c};
    }
  }

  /** Every pair in the matrix reads the same both ways round. */
  lemma RequirementsSymmetric(links: seq<Link>, requirements: Matrix, a: Site, b: Site)
    requires forall c :: c in requirements <==> Mentions(links, c)
    requires forall x, y | x in requirements :: requirements[x].Get(y) == LastDemand(links, x, y)
    requires a in requirements && requirements[a].Get(b).Some?
    ensures b in requirements && requirements[b].Get(a) == requirements[a].Get(b)
  {
    LastDemandSymmetric(links, a, b);
    LastDemandMentions(links, a, b);
  }
}
