/**
 * `DataFrame(rows).drop_duplicates(subset=['id'])`: the rows whose id has not
 * been seen before, in their original order (pandas keeps the first by default).
 */
module Dedup {
  import opened Records

  /** The ids that occur in a table. */
  function Ids(s: seq<Track>): set<string> {
    set t | t in s :: t.id
  }

  ghost predicate IdsDistinct(s: seq<Track>) {
    forall i, j :: 0 <= i < j < |s| ==> s[i].id != s[j].id
  }

  /** Position of the first row carrying `id`. */
  function FirstIndex(s: seq<Track>, id: string): (k: nat)
    requires id in Ids(s)
    ensures k < |s| && s[k].id == id
    ensures forall j :: 0 <= j < k ==> s[j].id != id
  {
    if s[0].id == id then 0 else 1 + FirstIndex(s[1..], id)
  }

  /** Keep each row whose id does not occur in an earlier row. */
  function DedupFirst(s: seq<Track>): seq<Track>
    decreases |s|
  {
    if s == [] then []
    else
      var kept := DedupFirst(s[..|s| - 1]);
      var last := s[|s| - 1];
      if last.id in Ids(kept) then kept else kept + [last]
  }

  lemma IdsSnoc(p: seq<Track>, x: Track)
    ensures Ids(p + [x]) == Ids(p) + {x.id}
  {
    assert forall t :: t in p + [x] <==> t in p || t == x;
  }

  /** Adding a row at the end does not move the first row of an id already present. */
  lemma {:induction false} FirstIndexSnoc(p: seq<Track>, x: Track, id: string)
    requires id in Ids(p + [x])
    ensures id in Ids(p) ==> FirstIndex(p + [x], id) == FirstIndex(p, id)
    ensures id !in Ids(p) ==> FirstIndex(p + [x], id) == |p|
  {
    var s := p + [x];
    if id in Ids(p) {
      var k := FirstIndex(p, id);
      var k' := FirstIndex(s, id);
      assert s[k] == p[k];
      assert k' <= k;
      assert k' < |p| ==> s[k'] == p[k'];
    } else {
      forall j | 0 <= j < |p| ensures p[j].id != id {
        assert p[j] in p;
      }
    }
  }

  /** Every id of the input is kept, and no other. */
  lemma {:induction false} DedupIds(s: seq<Track>)
    ensures Ids(DedupFirst(s)) == Ids(s)
    decreases |s|
  {
    if s != [] {
      var p, x := s[..|s| - 1], s[|s| - 1];
      assert s == p + [x];
      DedupIds(p);
      IdsSnoc(p, x);
      IdsSnoc(DedupFirst(p), x);
    }
  }

  /** No two kept rows share an id. */
  lemma {:induction false} DedupDistinct(s: seq<Track>)
    ensures IdsDistinct(DedupFirst(s))
    decreases |s|
  {
    if s != [] {
      var p := s[..|s| - 1];
      DedupDistinct(p);
      var kept := DedupFirst(p);
      forall i | 0 <= i < |kept| ensures kept[i].id in Ids(kept) {
        assert kept[i] in kept;
      }
    }
  }

  /** Each kept row is the first row of the input with its id; so every kept row is an input row. */
  lemma {:induction false} DedupKeepsFirst(s: seq<Track>)
    ensures var r := DedupFirst(s);
      forall k :: 0 <= k < |r| ==> r[k].id in Ids(s) && r[k] == s[FirstIndex(s, r[k].id)]
    decreases |s|
  {
    if s != [] {
      var p, x := s[..|s| - 1], s[|s| - 1];
      assert s == p + [x];
      DedupKeepsFirst(p);
      DedupIds(p);
      IdsSnoc(p, x);
      var kept, r := DedupFirst(p), DedupFirst(s);
      forall k | 0 <= k < |r| ensures r[k].id in Ids(s) && r[k] == s[FirstIndex(s, r[k].id)] {
        if k < |kept| {
          FirstIndexSnoc(p, x, r[k].id);
        } else {
          FirstIndexSnoc(p, x, x.id);
        }
      }
    }
  }

  /** Kept rows appear in the order of their first occurrences. */
  lemma {:induction false} DedupKeepsOrder(s: seq<Track>)
    ensures var r := DedupFirst(s);
      forall k1, k2 :: 0 <= k1 < k2 < |r| ==>
        r[k1].id in Ids(s) && r[k2].id in Ids(s) &&
        FirstIndex(s, r[k1].id) < FirstIndex(s, r[k2].id)
    decreases |s|
  {
    if s != [] {
      var p, x := s[..|s| - 1], s[|s| - 1];
      assert s == p + [x];
      DedupKeepsOrder(p);
      DedupKeepsFirst(p);
      DedupIds(p);
      IdsSnoc(p, x);
      var kept, r := DedupFirst(p), DedupFirst(s);
      forall k1, k2 | 0 <= k1 < k2 < |r|
        ensures r[k1].id in Ids(s) && r[k2].id in Ids(s)
        ensures FirstIndex(s, r[k1].id) < FirstIndex(s, r[k2].id)
      {
        FirstIndexSnoc(p, x, r[k1].id);
        FirstIndexSnoc(p, x, r[k2].id);
        if k2 == |kept| {
          assert r[k1] in kept;
        }
      }
    }
  }

  /** A row is kept exactly when it is the first row of the input with its id. */
  lemma DedupMembership(s: seq<Track>, t: Track)
    ensures t in DedupFirst(s) <==> t in s && t == s[FirstIndex(s, t.id)]
  {
    var r := DedupFirst(s);
    DedupKeepsFirst(s);
    DedupIds(s);
    if t in s && t == s[FirstIndex(s, t.id)] {
      assert t.id in Ids(r);
      var k :| 0 <= k < |r| && r[k].id == t.id;
    }
  }

  /** The table is empty after de-duplication exactly when it was empty before. */
  lemma DedupEmpty(s: seq<Track>)
    ensures DedupFirst(s) == [] <==> s == []
  {
    DedupIds(s);
    if s != [] {
      assert s[0].id in Ids(s);
    }
  }

  /** A table that repeats one row keeps it once. */
  lemma {:induction false} DedupConstant(s: seq<Track>, x: Track)
    requires s != [] && forall t :: t in s ==> t == x
    ensures DedupFirst(s) == [x]
    decreases |s|
  {
    var p := s[..|s| - 1];
    assert s[|s| - 1] in s;
    if p != [] {
      assert forall t :: t in p ==> t in s;
      DedupConstant(p, x);
      assert x.id in Ids([x]);
    }
  }
}
