/** The documents of an event source's stream: newest of mock/event-pieces.ts and
    events/window.go, offerPieces of connector/events.go, and the KeepNewest
    contract of connector/documents.go that its order is for. */
module Documents {
  import opened Options
  import opened Utf8

  /** A piece a read keeps, or a document a set holds: when it arrived, its id, and
      the version its row renders to. */
  datatype Kept = Kept(at: int, id: string, version: string)

  /** a comes before b: it arrived later, or at once with the lower id by bytes. */
  predicate Newer(a: Kept, b: Kept) {
    a.at > b.at || (a.at == b.at && NameBelow(a.id, b.id))
  }

  predicate Ordered(s: seq<Kept>) {
    forall i, j :: 0 <= i < j < |s| ==> Newer(s[i], s[j])
  }

  function Take(s: seq<Kept>, n: nat): seq<Kept> {
    if |s| <= n then s else s[..n]
  }

  /** p among the pieces it is newer than. */
  function Place(s: seq<Kept>, p: Kept): seq<Kept> {
    if s == [] || Newer(p, s[0]) then [p] + s else [s[0]] + Place(s[1..], p)
  }

  function PlaceAll(s: seq<Kept>, ps: seq<Kept>): seq<Kept> {
    if ps == [] then s else Place(PlaceAll(s, ps[..|ps| - 1]), ps[|ps| - 1])
  }

  /** The newest n pieces, newest first. */
  function Newest(ps: seq<Kept>, n: nat): seq<Kept> {
    Take(PlaceAll([], ps), n)
  }

  predicate DistinctIds(s: seq<Kept>) {
    forall i, j :: 0 <= i < j < |s| ==> s[i].id != s[j].id
  }

  function Ids(s: seq<Kept>): set<string> {
    set p | p in s :: p.id
  }

  // ---------------------------------------------------------------- What newest means

  lemma NewerTotal(a: Kept, b: Kept)
    requires a.id != b.id
    ensures Newer(a, b) <==> !Newer(b, a)
  {
    NamesTotal(a.id, b.id);
  }

  lemma NewerTransitive(a: Kept, b: Kept, c: Kept)
    requires Newer(a, b) && Newer(b, c)
    ensures Newer(a, c)
  {
    if a.at == b.at == c.at {
      NamesTransitive(a.id, b.id, c.id);
    }
  }

  /** Placing a piece keeps the pieces, and their order. */
  lemma {:induction false} PlaceKeeps(s: seq<Kept>, p: Kept)
    requires Ordered(s) && p.id !in Ids(s)
    ensures Ordered(Place(s, p)) && multiset(Place(s, p)) == multiset(s) + multiset{p}
  {
    hide Newer;
    if s != [] && !Newer(p, s[0]) {
      var rest := Place(s[1..], p);
      assert s == [s[0]] + s[1..] && s[0] in s && Ids(s[1..]) <= Ids(s);
      PlaceKeeps(s[1..], p);
      NewerTotal(p, s[0]);
      forall j | 0 <= j < |rest|
        ensures Newer(s[0], rest[j])
      {
        assert rest[j] in multiset(rest);
        assert rest[j] == p || rest[j] in s[1..];
      }
      PrependOrdered(s[0], rest);
    } else if s != [] {
      forall j | 0 <= j < |s|
        ensures Newer(p, s[j])
      {
        if j > 0 {
          NewerTransitive(p, s[0], s[j]);
        }
      }
      PrependOrdered(p, s);
    } else {
      assert Place(s, p) == [p];
    }
  }

  lemma PrependOrdered(p: Kept, s: seq<Kept>)
    requires Ordered(s) && forall j :: 0 <= j < |s| ==> Newer(p, s[j])
    ensures Ordered([p] + s)
  {
    hide Newer;
  }

  /** newest is the pieces in order, whole or cut at n: n of them no other is newer
      than. */
  lemma NewestOrders(ps: seq<Kept>)
    requires DistinctIds(ps)
    ensures multiset(PlaceAll([], ps)) == multiset(ps)
    ensures var s := PlaceAll([], ps);
            forall i, j :: 0 <= i < j < |s| ==> s[i].at > s[j].at || (s[i].at == s[j].at && NameBelow(s[i].id, s[j].id))
  {
    hide PlaceAll, NameBelow;
    PlacedInOrder(ps);
  }

  lemma {:induction false} PlacedInOrder(ps: seq<Kept>)
    requires DistinctIds(ps)
    ensures Ordered(PlaceAll([], ps)) && multiset(PlaceAll([], ps)) == multiset(ps)
  {
    hide Newer;
    if ps != [] {
      var n := |ps| - 1;
      var before := PlaceAll([], ps[..n]);
      PlacedInOrder(ps[..n]);
      assert ps == ps[..n] + [ps[n]];
      forall q | q in before
        ensures q.id != ps[n].id
      {
        assert q in multiset(before);
        assert q in ps[..n];
      }
      PlaceKeeps(before, ps[n]);
    }
  }

  /** There is one order of the same pieces. */
  lemma {:induction false} OrderUnique(a: seq<Kept>, b: seq<Kept>)
    requires Ordered(a) && Ordered(b) && forall p :: p in a <==> p in b
    ensures a == b
  {
    hide Newer;
    assert a != [] ==> a[0] in b;
    assert b != [] ==> b[0] in a;
    if a != [] {
      FirstAgree(a, b);
      RestOf(a);
      RestOf(b);
      hide Ordered;
      OrderUnique(a[1..], b[1..]);
    }
  }

  lemma RestOf(s: seq<Kept>)
    requires s != [] && Ordered(s)
    ensures s == [s[0]] + s[1..] && Ordered(s[1..])
    ensures forall p :: p in s[1..] <==> p in s && p != s[0]
  {
    hide Newer;
    NotBoth(s[0], s[0]);
    assert s == [s[0]] + s[1..];
  }

  lemma FirstAgree(a: seq<Kept>, b: seq<Kept>)
    requires Ordered(a) && Ordered(b) && a != [] && b != []
    requires a[0] in b && b[0] in a
    ensures a[0] == b[0]
  {
    if a[0] != b[0] {
      NotBoth(b[0], a[0]);
    }
  }

  lemma NotBoth(a: Kept, b: Kept)
    ensures !(Newer(a, b) && Newer(b, a))
  {
    NamesTotal(a.id, b.id);
  }

  // ---------------------------------------------------------------- Keeping as one goes

  lemma TakePrepend(h: Kept, t: seq<Kept>, n: nat)
    requires n > 0
    ensures Take([h] + t, n) == [h] + Take(t, n - 1)
  {
  }

  lemma TakeEnds(s: seq<Kept>, n: nat)
    ensures Take(s, 0) == [] && Take([], n) == []
    ensures s != [] && n > 0 ==> Take(s, n) == [s[0]] + Take(s[1..], n - 1)
    ensures n > 0 ==> Take(Take(s, n), n - 1) == Take(s, n - 1)
  {
  }

  /** Keeping the newest n before placing one more loses nothing. */
  lemma {:induction false} TakeThenPlace(s: seq<Kept>, p: Kept, n: nat)
    ensures Take(Place(Take(s, n), p), n) == Take(Place(s, p), n)
  {
    hide Newer, Take;
    TakeEnds(s, n);
    TakeEnds(Place(Take(s, n), p), n);
    TakeEnds(Place(s, p), n);
    if n > 0 && s != [] {
      var t := Take(s[1..], n - 1);
      assert ([s[0]] + t)[1..] == t;
      if Newer(p, s[0]) {
        TakePrepend(p, Take(s, n), n);
        TakePrepend(p, s, n);
      } else {
        TakeThenPlace(s[1..], p, n - 1);
        TakePrepend(s[0], Place(s[1..], p), n);
        TakePrepend(s[0], Place(t, p), n);
      }
    }
  }

  lemma {:induction false} TakeThenPlaceAll(s: seq<Kept>, ps: seq<Kept>, n: nat)
    ensures Take(PlaceAll(Take(s, n), ps), n) == Take(PlaceAll(s, ps), n)
  {
    hide Place, Take;
    if ps != [] {
      var before, p := ps[..|ps| - 1], ps[|ps| - 1];
      TakeThenPlaceAll(s, before, n);
      TakeThenPlace(PlaceAll(Take(s, n), before), p, n);
      TakeThenPlace(PlaceAll(s, before), p, n);
    } else {
      TakeTwice(s, n);
    }
  }

  lemma TakeTwice(s: seq<Kept>, n: nat)
    ensures Take(Take(s, n), n) == Take(s, n)
  {
  }

  lemma {:induction false} PlaceAllConcat(s: seq<Kept>, a: seq<Kept>, b: seq<Kept>)
    ensures PlaceAll(s, a + b) == PlaceAll(PlaceAll(s, a), b)
  {
    hide Place;
    if b == [] {
      assert a + b == a;
    } else {
      var n := |b| - 1;
      assert (a + b)[..|a| + n] == a + b[..n];
      PlaceAllConcat(s, a, b[..n]);
    }
  }

  /** Placing pieces already in order puts them back as they were. */
  lemma PlaceInOrder(s: seq<Kept>)
    requires Ordered(s) && DistinctIds(s)
    ensures PlaceAll([], s) == s
  {
    PlacedInOrder(s);
    SameElements(PlaceAll([], s), s);
    OrderUnique(PlaceAll([], s), s);
  }

  lemma SameElements(a: seq<Kept>, b: seq<Kept>)
    requires multiset(a) == multiset(b)
    ensures forall p :: p in a <==> p in b
  {
    forall p
      ensures p in a <==> p in b
    {
      assert p in a <==> p in multiset(a);
      assert p in b <==> p in multiset(b);
    }
  }

  /** Keeping the newest n of some pieces, then of those and more, keeps the newest
      n of them all. */
  lemma NewestOfNewest(a: seq<Kept>, b: seq<Kept>, n: nat)
    requires DistinctIds(a + b)
    ensures Newest(Newest(a, n) + b, n) == Newest(a + b, n)
  {
    hide Newer, Place;
    assert DistinctIds(a) by {
      assert forall i :: 0 <= i < |a| ==> (a + b)[i] == a[i];
    }
    PlacedInOrder(a);
    OrderedDistinct(PlaceAll([], a), a);
    var kept := Newest(a, n);
    assert Ordered(kept) && DistinctIds(kept);
    PlaceInOrder(kept);
    PlaceAllConcat([], kept, b);
    PlaceAllConcat([], a, b);
    TakeThenPlaceAll(PlaceAll([], a), b, n);
  }

  lemma OrderedDistinct(s: seq<Kept>, ps: seq<Kept>)
    requires Ordered(s) && DistinctIds(ps) && multiset(s) == multiset(ps)
    ensures DistinctIds(s)
  {
    forall i, j | 0 <= i < j < |s|
      ensures s[i].id != s[j].id
    {
      assert s[i] in multiset(ps) && s[j] in multiset(ps);
      var k :| 0 <= k < |ps| && ps[k] == s[i];
      var l :| 0 <= l < |ps| && ps[l] == s[j];
      NotBoth(s[i], s[i]);
      assert k != l;
    }
  }

  /** A read's window: the newest n pieces it has been offered. */
  class Window {
    const n: nat
    var kept: seq<Kept>
    ghost var offered: seq<Kept>

    ghost predicate Valid()
      reads this
    {
      n >= 1 && kept == Newest(offered, n) && Ordered(kept) && |kept| <= n
    }

    constructor (n: nat)
      requires n >= 1
      ensures Valid() && this.n == n && offered == []
    {
      this.n, kept, offered := n, [], [];
    }

    /** Keeps the piece while it is among the newest n offered; a full window gives
        up its oldest for it. */
    method Push(p: Kept)
      requires Valid() && DistinctIds(offered + [p])
      modifies this`kept, this`offered
      ensures Valid() && offered == old(offered) + [p]
    {
      hide Newer;
      PushNewest(offered, p, n);
      if |kept| < n {
        kept := Place(kept, p);
      } else if Newer(p, kept[|kept| - 1]) {
        ReplaceOldest(kept, p);
        kept := Place(kept[..|kept| - 1], p);
      } else {
        PlaceLast(kept, p);
      }
      offered := offered + [p];
    }
  }

  lemma PushNewest(offered: seq<Kept>, p: Kept, n: nat)
    requires DistinctIds(offered + [p])
    ensures Newest(offered + [p], n) == Take(Place(Newest(offered, n), p), n)
    ensures Ordered(Newest(offered + [p], n))
    ensures |Place(Newest(offered, n), p)| == |Newest(offered, n)| + 1
  {
    hide Newer, Place;
    assert (offered + [p])[..|offered|] == offered;
    TakeThenPlace(PlaceAll([], offered), p, n);
    PlacedInOrder(offered + [p]);
    PlaceLength(Newest(offered, n), p);
  }

  lemma {:induction false} PlaceLength(s: seq<Kept>, p: Kept)
    ensures |Place(s, p)| == |s| + 1
  {
    if s != [] && !Newer(p, s[0]) {
      PlaceLength(s[1..], p);
    }
  }

  /** A piece newer than the oldest goes before it. */
  lemma {:induction false} ReplaceOldest(s: seq<Kept>, p: Kept)
    requires s != [] && Newer(p, s[|s| - 1])
    ensures Place(s, p) == Place(s[..|s| - 1], p) + [s[|s| - 1]]
  {
    hide Newer;
    if !Newer(p, s[0]) {
      ReplaceOldest(s[1..], p);
      assert s[1..][..|s| - 2] == s[..|s| - 1][1..];
    } else {
      assert s == s[..|s| - 1] + [s[|s| - 1]];
    }
  }

  /** A piece no newer than any goes last. */
  lemma {:induction false} PlaceLast(s: seq<Kept>, p: Kept)
    requires Ordered(s) && s != [] && !Newer(p, s[|s| - 1])
    ensures Place(s, p) == s + [p]
  {
    hide Newer;
    assert !Newer(p, s[0]) by {
      if Newer(p, s[0]) && |s| > 1 {
        NewerTransitive(p, s[0], s[|s| - 1]);
      }
    }
    if |s| > 1 {
      PlaceLast(s[1..], p);
    } else {
      assert s[1..] == [] && Place([], p) == [p];
    }
  }

  // ---------------------------------------------------------------- A set kept at its newest n

  /** The documents whose ids are not among these. */
  function Others(s: seq<Kept>, ids: set<string>): seq<Kept> {
    if s == [] then [] else (if s[0].id in ids then [] else [s[0]]) + Others(s[1..], ids)
  }

  /** The set once p is put: in place of its held document, if any. */
  function Put(s: seq<Kept>, p: Kept): seq<Kept> {
    Place(Others(s, {p.id}), p)
  }

  /** What a set kept at its newest n holds after each put trims it. */
  function OfferAll(s: seq<Kept>, ps: seq<Kept>, n: nat): seq<Kept> {
    if ps == [] then s else Take(Put(OfferAll(s, ps[..|ps| - 1], n), ps[|ps| - 1]), n)
  }

  /** The version of a document the set holds. */
  function Held(s: seq<Kept>, id: string): Option<string> {
    if s == [] then None else if s[0].id == id then Some(s[0].version) else Held(s[1..], id)
  }

  /** The kept pieces the set holds at their version, in order. */
  function HeldPart(s: seq<Kept>, kept: seq<Kept>): seq<Kept> {
    if kept == [] then []
    else HeldPart(s, kept[..|kept| - 1]) + if IsHeld(s, kept[|kept| - 1]) then [kept[|kept| - 1]] else []
  }

  function RestPart(s: seq<Kept>, kept: seq<Kept>): seq<Kept> {
    if kept == [] then []
    else RestPart(s, kept[..|kept| - 1]) + if IsHeld(s, kept[|kept| - 1]) then [] else [kept[|kept| - 1]]
  }

  predicate IsHeld(s: seq<Kept>, p: Kept) {
    Held(s, p.id) == Some(p.version)
  }

  /** Added is a new document; InPlace one the set held, moved to its new time. */
  datatype Outcome = InPlace | Added | Outside

  /** A stream's set under KeepNewest: each put may be published, and its trims made
      final, before the next. */
  class DocumentSet {
    const n: nat
    var documents: seq<Kept>

    ghost predicate Valid()
      reads this
    {
      n >= 1 && |documents| <= n && Ordered(documents) && DistinctIds(documents)
    }

    constructor (n: nat, documents: seq<Kept>)
      requires n >= 1 && |documents| <= n && Ordered(documents) && DistinctIds(documents)
      ensures Valid() && this.n == n && this.documents == documents
    {
      this.n, this.documents := n, documents;
    }

    method PutDocument(p: Kept) returns (outcome: Outcome)
      requires Valid()
      modifies this`documents
      ensures Valid() && documents == Take(Put(old(documents), p), n)
      ensures outcome.InPlace? <==> p.id in Ids(old(documents))
      ensures outcome.InPlace? ==> Ids(documents) == Ids(old(documents)) && |documents| == |old(documents)|
      ensures outcome.Outside? ==> documents == old(documents)
    {
      hide Newer, Ordered, Put, Ids, DistinctIds;
      PutKeeps(documents, p, n);
      var put := Put(documents, p);
      outcome := if p.id in Ids(documents) then InPlace else if |put| > n && put[n] == p then Outside else Added;
      if outcome.Outside? {
        LastOut(documents, p, n);
      }
      documents := Take(put, n);
    }

    /** Ends a full read: the documents it did not offer are removed. */
    method RemoveOthers(offered: set<string>)
      requires Valid()
      modifies this`documents
      ensures Valid() && documents == Only(old(documents), offered)
    {
      hide Newer;
      OnlyKept(documents, offered);
      documents := Only(documents, offered);
    }
  }

  /** The documents whose ids are among these. */
  function Only(s: seq<Kept>, ids: set<string>): seq<Kept> {
    if s == [] then [] else Only(s[..|s| - 1], ids) + if s[|s| - 1].id in ids then [s[|s| - 1]] else []
  }

  lemma {:induction false} OnlyKept(s: seq<Kept>, ids: set<string>)
    requires Ordered(s) && DistinctIds(s)
    ensures Ordered(Only(s, ids)) && DistinctIds(Only(s, ids)) && |Only(s, ids)| <= |s|
    ensures forall p :: p in Only(s, ids) <==> p in s && p.id in ids
  {
    hide Newer;
    if s != [] {
      var n := |s| - 1;
      OnlyKept(s[..n], ids);
      assert s == s[..n] + [s[n]];
      AppendLast(Only(s[..n], ids), s[..n], s[n]);
    }
  }

  lemma AppendLast(part: seq<Kept>, s: seq<Kept>, last: Kept)
    requires Ordered(s + [last]) && DistinctIds(s + [last]) && Ordered(part) && DistinctIds(part)
    requires forall p :: p in part ==> p in s
    ensures Ordered(part + [last]) && DistinctIds(part + [last])
  {
    hide Newer;
    forall i | 0 <= i < |part|
      ensures Newer(part[i], last) && part[i].id != last.id
    {
      assert part[i] in s;
      var k :| 0 <= k < |s| && s[k] == part[i];
      assert (s + [last])[k] == part[i] && (s + [last])[|s|] == last;
    }
  }

  lemma OnlyAll(s: seq<Kept>)
    ensures Only(s, Ids(s)) == s
  {
    OnlySome(s, Ids(s));
  }

  lemma {:induction false} OnlySome(s: seq<Kept>, ids: set<string>)
    requires forall p :: p in s ==> p.id in ids
    ensures Only(s, ids) == s
  {
    if s != [] {
      var n := |s| - 1;
      assert s == s[..n] + [s[n]];
      OnlySome(s[..n], ids);
    }
  }

  lemma PutKeeps(s: seq<Kept>, p: Kept, n: nat)
    requires Ordered(s) && DistinctIds(s) && |s| <= n
    ensures Ordered(Take(Put(s, p), n)) && DistinctIds(Take(Put(s, p), n)) && |Take(Put(s, p), n)| <= n
    ensures p.id in Ids(s) ==> Put(s, p) == Take(Put(s, p), n) && |Put(s, p)| == |s| && Ids(Put(s, p)) == Ids(s)
  {
    hide Newer, Place;
    var others := Others(s, {p.id});
    OthersKept(s, {p.id});
    PlaceKeeps(others, p);
    PutLength(s, p);
    PlacedIds(others, p);
    PlacedDistinct(others, p);
  }

  lemma {:induction false} OthersIn(s: seq<Kept>, ids: set<string>)
    ensures forall p :: p in Others(s, ids) <==> p in s && p.id !in ids
    ensures Ids(Others(s, ids)) == Ids(s) - ids
  {
    if s != [] {
      OthersIn(s[1..], ids);
      assert s == [s[0]] + s[1..];
    }
  }

  lemma {:induction false} OthersKept(s: seq<Kept>, ids: set<string>)
    requires Ordered(s) && DistinctIds(s)
    ensures Ordered(Others(s, ids)) && DistinctIds(Others(s, ids))
    ensures forall p :: p in Others(s, ids) <==> p in s && p.id !in ids
    ensures Ids(Others(s, ids)) == Ids(s) - ids
  {
    hide Newer, Ids;
    OthersIn(s, ids);
    if s != [] {
      var rest := Others(s[1..], ids);
      OthersKept(s[1..], ids);
      forall j | 0 <= j < |rest|
        ensures Newer(s[0], rest[j]) && s[0].id != rest[j].id
      {
        assert rest[j] in s[1..];
      }
    }
  }

  lemma {:induction false} PutLength(s: seq<Kept>, p: Kept)
    requires DistinctIds(s)
    ensures |Others(s, {p.id})| == |s| - (if p.id in Ids(s) then 1 else 0)
    ensures |Put(s, p)| == |Others(s, {p.id})| + 1
  {
    PlaceLength(Others(s, {p.id}), p);
    if s != [] {
      assert s == [s[0]] + s[1..];
      PutLength(s[1..], p);
      assert Ids(s) == {s[0].id} + Ids(s[1..]);
    }
  }

  lemma {:induction false} PlacedIds(s: seq<Kept>, p: Kept)
    ensures Ids(Place(s, p)) == Ids(s) + {p.id}
  {
    hide Newer;
    if s == [] || Newer(p, s[0]) {
      assert Ids([p] + s) == {p.id} + Ids(s);
    } else {
      PlacedIds(s[1..], p);
      assert s == [s[0]] + s[1..] && Ids(s) == {s[0].id} + Ids(s[1..]);
      var rest := Place(s[1..], p);
      assert Ids([s[0]] + rest) == {s[0].id} + Ids(rest);
    }
  }

  lemma PlacedDistinct(s: seq<Kept>, p: Kept)
    requires p.id !in Ids(s) && DistinctIds(s) && Ordered(s)
    ensures DistinctIds(Place(s, p))
  {
    hide Newer, Place;
    PlaceKeeps(s, p);
    forall i, j | 0 <= i < j < |s + [p]|
      ensures (s + [p])[i].id != (s + [p])[j].id
    {
      assert s[i] in s;
    }
    assert multiset(s + [p]) == multiset(s) + multiset{p};
    OrderedDistinct(Place(s, p), s + [p]);
  }

  /** A new document that comes after a full set's oldest changes nothing. */
  lemma LastOut(s: seq<Kept>, p: Kept, n: nat)
    requires Ordered(s) && DistinctIds(s) && |s| <= n && p.id !in Ids(s)
    requires |Put(s, p)| > n && Put(s, p)[n] == p
    ensures Take(Put(s, p), n) == s
  {
    hide Newer;
    NoneOut(s, p.id);
    PlaceLength(s, p);
    PlaceEnd(s, p);
  }

  lemma {:induction false} NoneOut(s: seq<Kept>, id: string)
    requires id !in Ids(s)
    ensures Others(s, {id}) == s
  {
    if s != [] {
      assert s == [s[0]] + s[1..] && s[0] in s && Ids(s[1..]) <= Ids(s);
      NoneOut(s[1..], id);
    }
  }

  lemma {:induction false} PlaceEnd(s: seq<Kept>, p: Kept)
    requires p !in s && |Place(s, p)| == |s| + 1 && Place(s, p)[|s|] == p
    ensures Place(s, p) == s + [p]
  {
    hide Newer;
    if s != [] && !Newer(p, s[0]) {
      PlaceLength(s[1..], p);
      PlaceEnd(s[1..], p);
      assert s == [s[0]] + s[1..];
    }
  }

  // ---------------------------------------------------------------- Offering a read's pieces

  /** Offers the kept pieces: those the set holds at their version first, then the
      rest, each newest first as kept has them. */
  method OfferPieces(kept: seq<Kept>, documents: DocumentSet)
    requires documents.Valid()
    modifies documents`documents
    ensures documents.Valid()
    ensures documents.documents == OfferAll(old(documents.documents), HeldFirst(old(documents.documents), kept), documents.n)
  {
    hide Newer, Ordered, DistinctIds, Put, Take;
    ghost var before := documents.documents;
    var held, rest := [], [];
    for i := 0 to |kept|
      invariant held == HeldPart(before, kept[..i]) && rest == RestPart(before, kept[..i])
      invariant documents.documents == before && documents.Valid()
    {
      assert kept[..i + 1][..i] == kept[..i];
      if Held(documents.documents, kept[i].id) == Some(kept[i].version) {
        held := held + [kept[i]];
      } else {
        rest := rest + [kept[i]];
      }
    }
    assert kept[..|kept|] == kept;
    var offers := held + rest;
    for i := 0 to |offers|
      invariant documents.Valid() && documents.documents == OfferAll(before, offers[..i], documents.n)
    {
      assert offers[..i + 1][..i] == offers[..i];
      var _ := documents.PutDocument(offers[i]);
    }
    assert offers[..|offers|] == offers;
  }

  function HeldFirst(s: seq<Kept>, kept: seq<Kept>): seq<Kept> {
    HeldPart(s, kept) + RestPart(s, kept)
  }

  /** Each kept piece is offered once. */
  lemma {:induction false} EachOnce(s: seq<Kept>, kept: seq<Kept>)
    ensures multiset(HeldFirst(s, kept)) == multiset(kept)
    ensures forall p :: p in HeldPart(s, kept) ==> p in kept && IsHeld(s, p)
    ensures forall p :: p in RestPart(s, kept) ==> p in kept && !IsHeld(s, p)
  {
    hide IsHeld;
    if kept != [] {
      var n := |kept| - 1;
      EachOnce(s, kept[..n]);
      assert kept == kept[..n] + [kept[n]];
    }
  }

  /** And each part newest first, as kept is. */
  lemma {:induction false} PartsOrdered(s: seq<Kept>, kept: seq<Kept>)
    requires Ordered(kept)
    ensures Ordered(HeldPart(s, kept)) && Ordered(RestPart(s, kept))
  {
    hide Newer, IsHeld;
    if kept != [] {
      var n := |kept| - 1;
      PartsOrdered(s, kept[..n]);
      EachOnce(s, kept[..n]);
      forall p | p in HeldPart(s, kept[..n]) || p in RestPart(s, kept[..n])
        ensures Newer(p, kept[n])
      {
        assert p in kept[..n];
      }
    }
  }

  lemma {:induction false} HeldIn(s: seq<Kept>, id: string)
    ensures Held(s, id).Some? <==> id in Ids(s)
  {
    if s != [] {
      HeldIn(s[1..], id);
      assert s == [s[0]] + s[1..];
    }
  }

  /** While the held versions are offered, no document leaves the set: each is moved
      in place, and none is trimmed before the read offers it. */
  lemma {:induction false} HeldMoveInPlace(s: seq<Kept>, held: seq<Kept>, n: nat)
    requires Ordered(s) && DistinctIds(s) && |s| <= n
    requires forall p :: p in held ==> IsHeld(s, p)
    ensures var after := OfferAll(s, held, n);
            Ordered(after) && DistinctIds(after) && |after| == |s| && Ids(after) == Ids(s)
  {
    hide Newer, Put, Take, Ids, Ordered, DistinctIds;
    if held != [] {
      var m := |held| - 1;
      assert held[m] in held;
      HeldMoveInPlace(s, held[..m], n);
      HeldIn(s, held[m].id);
      PutKeeps(OfferAll(s, held[..m], n), held[m], n);
    }
  }

  /** So when the rest is offered, every held version is already at its new time:
      an identical resend is never trimmed, then added again. */
  lemma ResendsStay(s: seq<Kept>, kept: seq<Kept>, n: nat, k: nat)
    requires Ordered(s) && DistinctIds(s) && |s| <= n && k <= |HeldPart(s, kept)|
    ensures var offers := HeldFirst(s, kept);
            && Ids(OfferAll(s, offers[..k], n)) == Ids(s)
            && (k < |HeldPart(s, kept)| ==> offers[k].id in Ids(OfferAll(s, offers[..k], n)))
  {
    hide Ids, OfferAll;
    var held := HeldPart(s, kept);
    EachOnce(s, kept);
    assert HeldFirst(s, kept)[..k] == held[..k];
    HeldMoveInPlace(s, held[..k], n);
    if k < |held| {
      assert held[k] in held;
      HeldIn(s, held[k].id);
    }
  }

  /** A put to a full set of two: at its front, or between them. */
  lemma PutToTwo(x: Kept, y: Kept, p: Kept)
    requires p.id != x.id && p.id != y.id && Newer(p, y)
    ensures Take(Put([x, y], p), 2) == if Newer(p, x) then [p, x] else [x, p]
  {
    hide Newer;
    NoneOut([x, y], p.id);
    assert [x, y][1..] == [y];
    assert Place([y], p) == [p, y];
  }

  /** Offered newest first alone, one would be: the set's oldest makes room for a new
      piece, then comes back as a new document and pushes out another. */
  lemma NewestFirstAddsAgain()
    ensures var s := [Kept(2, "b", "y"), Kept(1, "a", "x")];
            var kept := [Kept(10, "c", "z"), Kept(9, "a", "x")];
            && Ordered(s) && Ordered(kept) && IsHeld(s, kept[1])
            && "a" !in Ids(OfferAll(s, kept[..1], 2)) && "a" in Ids(OfferAll(s, kept, 2))
            && "a" in Ids(OfferAll(s, HeldFirst(s, kept)[..1], 2))
  {
    hide Put, HeldFirst, IsHeld, Take;
    var s := [Kept(2, "b", "y"), Kept(1, "a", "x")];
    var kept := [Kept(10, "c", "z"), Kept(9, "a", "x")];
    assert kept[..1] == [kept[0]] && kept[..1][..0] == [];
    PutToTwo(s[0], s[1], kept[0]);
    PutToTwo(kept[0], s[0], kept[1]);
    assert OfferAll(s, kept[..1], 2) == [kept[0], s[0]];
    assert OfferAll(s, kept, 2) == [kept[0], kept[1]];
    assert kept[1] in [kept[0], kept[1]];
    FirstHeld(s, kept);
  }

  lemma FirstHeld(s: seq<Kept>, kept: seq<Kept>)
    requires s == [Kept(2, "b", "y"), Kept(1, "a", "x")] && kept == [Kept(10, "c", "z"), Kept(9, "a", "x")]
    ensures IsHeld(s, kept[1]) && !IsHeld(s, kept[0])
    ensures |HeldFirst(s, kept)| >= 1 && "a" in Ids(OfferAll(s, HeldFirst(s, kept)[..1], 2))
  {
    assert s[1..] == [s[1]] && s[1..][1..] == [];
    assert Held(s, "a") == Held(s[1..], "a") == Some("x");
    assert Held(s, "c") == Held(s[1..], "c") == Held([], "c") == None;
    assert kept[..1] == [kept[0]] && kept[..1][..0] == [];
    assert HeldPart(s, kept[..1]) == [];
    assert HeldPart(s, kept) == [kept[1]];
    assert HeldFirst(s, kept)[..1] == [kept[1]];
    assert s[1] in s;
    HeldMoveInPlace(s, [kept[1]], 2);
  }

  // ---------------------------------------------------------------- What the set ends as

  /** p is no older than the document the set holds of its id. */
  predicate NotOlder(s: seq<Kept>, p: Kept) {
    forall q :: q in s && q.id == p.id ==> q.at <= p.at
  }

  lemma {:induction false} TakeThenDrop(s: seq<Kept>, id: string, n: nat)
    requires DistinctIds(s)
    ensures n > 0 ==> Take(Others(Take(s, n), {id}), n - 1) == Take(Others(s, {id}), n - 1)
  {
    hide Take, Ids;
    TakeEnds(s, n);
    if n > 0 && s != [] {
      var t := Take(s[1..], n - 1);
      assert ([s[0]] + t)[1..] == t;
      TakeThenDrop(s[1..], id, n - 1);
      FirstApart(s);
      if s[0].id == id {
        NoneOut(s[1..], id);
        TakeIds(s[1..], n - 1);
        NoneOut(t, id);
        assert Others([s[0]] + t, {id}) == t && Others(s, {id}) == s[1..];
        TakeTwice(s[1..], n - 1);
      } else {
        OneDropped(s, t, id, n);
      }
    }
  }

  lemma FirstApart(s: seq<Kept>)
    requires s != [] && DistinctIds(s)
    ensures s[0].id !in Ids(s[1..]) && Ids(s) == {s[0].id} + Ids(s[1..]) && DistinctIds(s[1..])
  {
    assert s == [s[0]] + s[1..];
  }

  lemma TakeIds(s: seq<Kept>, n: nat)
    ensures Ids(Take(s, n)) <= Ids(s)
  {
    assert forall p :: p in Take(s, n) ==> p in s;
  }

  lemma OneDropped(s: seq<Kept>, t: seq<Kept>, id: string, n: nat)
    requires s != [] && n > 0 && s[0].id != id && DistinctIds(s) && t == Take(s[1..], n - 1)
    requires n > 1 ==> Take(Others(t, {id}), n - 2) == Take(Others(s[1..], {id}), n - 2)
    ensures Take(Others([s[0]] + t, {id}), n - 1) == Take(Others(s, {id}), n - 1)
  {
    hide Take, Ids;
    assert ([s[0]] + t)[1..] == t;
    assert Others([s[0]] + t, {id}) == [s[0]] + Others(t, {id});
    assert Others(s, {id}) == [s[0]] + Others(s[1..], {id});
    if n > 1 {
      TakePrepend(s[0], Others(s[1..], {id}), n - 1);
      TakePrepend(s[0], Others(t, {id}), n - 1);
    } else {
      TakeEnds(Others([s[0]] + t, {id}), 0);
      TakeEnds(Others(s, {id}), 0);
    }
  }

  /** Trimming to the newest n before a put that is no older loses nothing. */
  lemma {:induction false} TakeThenPut(s: seq<Kept>, p: Kept, n: nat)
    requires Ordered(s) && DistinctIds(s) && NotOlder(s, p)
    ensures Take(Put(Take(s, n), p), n) == Take(Put(s, p), n)
  {
    hide Newer, Take, Ids, DistinctIds, Ordered, NotOlder;
    TakeEnds(s, n);
    TakeEnds(Put(Take(s, n), p), n);
    TakeEnds(Put(s, p), n);
    if n > 0 && s != [] {
      var t := Take(s[1..], n - 1);
      assert ([s[0]] + t)[1..] == t;
      FirstApart(s);
      TailOrdered(s, p);
      TakeThenDrop(s, p.id, n);
      if s[0].id == p.id {
        PutOverFirst(s, p, n);
      } else if Newer(p, s[0]) {
        TakePrepend(p, Others(Take(s, n), {p.id}), n);
        TakePrepend(p, Others(s, {p.id}), n);
      } else {
        TakeThenPut(s[1..], p, n - 1);
        TakePrepend(s[0], Put(s[1..], p), n);
        TakePrepend(s[0], Put(t, p), n);
        assert Put(s, p) == [s[0]] + Put(s[1..], p);
        assert Put(Take(s, n), p) == [s[0]] + Put(t, p);
      }
    }
  }

  lemma TailOrdered(s: seq<Kept>, p: Kept)
    requires s != [] && Ordered(s) && NotOlder(s, p)
    ensures Ordered(s[1..]) && NotOlder(s[1..], p)
  {
    hide Newer;
  }

  lemma PutOverFirst(s: seq<Kept>, p: Kept, n: nat)
    requires s != [] && n > 0 && s[0].id == p.id && Ordered(s) && DistinctIds(s) && NotOlder(s, p)
    ensures Take(Put(Take(s, n), p), n) == Take(Put(s, p), n)
  {
    hide Take, Ids, DistinctIds, Newer, Place;
    var t := Take(s[1..], n - 1);
    TakeEnds(s, n);
    FirstApart(s);
    NoneOut(s[1..], p.id);
    TakeIds(s[1..], n - 1);
    NoneOut(t, p.id);
    assert ([s[0]] + t)[1..] == t;
    assert s[0] in s && s[0].at <= p.at && s == [s[0]] + s[1..];
    assert Others(s, {p.id}) == s[1..] && Others(Take(s, n), {p.id}) == t;
    FrontOf(s[1..], s[0], p);
    TakePrefix(s[1..], n - 1);
    TakePrepend(p, s[1..], n);
    TakePrepend(p, t, n);
    TakeTwice(s[1..], n - 1);
  }

  /** What is no older than a document newer than the others goes before them. */
  lemma FrontOf(s: seq<Kept>, first: Kept, p: Kept)
    requires Ordered([first] + s) && first.id == p.id && first.at <= p.at
    ensures Place(s, p) == [p] + s
    ensures forall t :: t <= s ==> Place(t, p) == [p] + t
  {
    if s != [] {
      assert ([first] + s)[0] == first && ([first] + s)[1] == s[0];
      assert forall t :: t <= s && t != [] ==> t[0] == s[0];
    }
  }

  lemma TakePrefix(s: seq<Kept>, n: nat)
    ensures Take(s, n) <= s
  {
  }

  /** The set with every put and no trim. */
  function PutAll(s: seq<Kept>, ps: seq<Kept>): seq<Kept> {
    if ps == [] then s else Put(PutAll(s, ps[..|ps| - 1]), ps[|ps| - 1])
  }

  lemma {:induction false} OfferTakes(s: seq<Kept>, ps: seq<Kept>, n: nat)
    requires Ordered(s) && DistinctIds(s) && |s| <= n && DistinctIds(ps)
    requires forall p :: p in ps ==> NotOlder(s, p)
    ensures Ordered(PutAll(s, ps)) && DistinctIds(PutAll(s, ps))
    ensures forall q :: q in PutAll(s, ps) ==> q in s || q in ps
    ensures OfferAll(s, ps, n) == Take(PutAll(s, ps), n)
  {
    hide Newer, Take, Ids, Put;
    if ps == [] {
      WholeTaken(s, n);
    } else {
      var m := |ps| - 1;
      var before, p := PutAll(s, ps[..m]), ps[m];
      assert ps == ps[..m] + [p];
      OfferTakes(s, ps[..m], n);
      assert NotOlder(before, p) by {
        assert NotOlder(s, p);
        forall q | q in ps[..m]
          ensures q.id != p.id
        {
          var k :| 0 <= k < m && ps[..m][k] == q;
          assert ps[k].id != ps[m].id;
        }
      }
      TakeThenPut(before, p, n);
      PutHolds(before, p);
    }
  }

  lemma WholeTaken(s: seq<Kept>, n: nat)
    requires |s| <= n
    ensures Take(s, n) == s
  {
  }

  lemma PutHolds(s: seq<Kept>, p: Kept)
    requires Ordered(s) && DistinctIds(s)
    ensures Ordered(Put(s, p)) && DistinctIds(Put(s, p))
    ensures multiset(Put(s, p)) == multiset(Others(s, {p.id})) + multiset{p}
    ensures forall q :: q in Put(s, p) ==> q == p || (q in s && q.id != p.id)
  {
    hide Newer, Place;
    OthersKept(s, {p.id});
    PlaceKeeps(Others(s, {p.id}), p);
    PlacedDistinct(Others(s, {p.id}), p);
    forall q | q in Put(s, p)
      ensures q == p || (q in s && q.id != p.id)
    {
      assert q in multiset(Put(s, p));
    }
  }

  /** A set's documents that are not offered, and the pieces that are. */
  function Overlaid(s: seq<Kept>, ps: seq<Kept>): seq<Kept> {
    Others(s, Ids(ps)) + ps
  }

  lemma {:induction false} PutAllHolds(s: seq<Kept>, ps: seq<Kept>)
    requires Ordered(s) && DistinctIds(s) && DistinctIds(ps)
    ensures Ordered(PutAll(s, ps)) && DistinctIds(PutAll(s, ps))
    ensures forall q :: q in PutAll(s, ps) <==> q in Overlaid(s, ps)
  {
    hide Newer, Put;
    OthersIn(s, Ids(ps));
    if ps != [] {
      var m := |ps| - 1;
      assert ps == ps[..m] + [ps[m]];
      PutAllHolds(s, ps[..m]);
      OthersIn(s, Ids(ps[..m]));
      PutIn(PutAll(s, ps[..m]), ps[m]);
      forall q | q in ps[..m]
        ensures q.id != ps[m].id
      {
        var k :| 0 <= k < m && ps[..m][k] == q;
        assert ps[k].id != ps[m].id;
      }
      assert Ids(ps) == Ids(ps[..m]) + {ps[m].id};
    }
  }

  lemma PutIn(s: seq<Kept>, p: Kept)
    requires Ordered(s) && DistinctIds(s)
    ensures Ordered(Put(s, p)) && DistinctIds(Put(s, p))
    ensures forall q :: q in Put(s, p) <==> q == p || (q in s && q.id != p.id)
  {
    hide Newer, Place;
    PutHolds(s, p);
    OthersIn(s, {p.id});
    forall q | q == p || (q in s && q.id != p.id)
      ensures q in Put(s, p)
    {
      assert q in multiset(Put(s, p));
    }
  }

  lemma InsertDistinct(a: seq<Kept>, b: seq<Kept>, p: Kept)
    requires DistinctIds(a + b) && p.id !in Ids(a + b)
    ensures DistinctIds(a + [p] + b) && DistinctIds(a + (b + [p]))
  {
    var s := a + b;
    assert forall i :: 0 <= i < |s| ==> s[i] in s;
    forall i, j | 0 <= i < j < |s| + 1
      ensures (a + [p] + b)[i].id != (a + [p] + b)[j].id
      ensures (s + [p])[i].id != (s + [p])[j].id
    {
      assert i < |a| ==> (a + [p] + b)[i] == s[i];
      assert i > |a| ==> (a + [p] + b)[i] == s[i - 1];
      assert j < |a| ==> (a + [p] + b)[j] == s[j];
      assert j > |a| ==> (a + [p] + b)[j] == s[j - 1];
    }
    assert a + (b + [p]) == s + [p];
  }

  lemma {:induction false} OffersDistinct(s: seq<Kept>, kept: seq<Kept>)
    requires DistinctIds(kept)
    ensures DistinctIds(HeldFirst(s, kept))
  {
    hide IsHeld, Ids;
    if kept != [] {
      var m := |kept| - 1;
      OffersDistinct(s, kept[..m]);
      EachOnce(s, kept[..m]);
      SameElements(HeldFirst(s, kept[..m]), kept[..m]);
      LastApart(kept, HeldFirst(s, kept[..m]));
      InsertDistinct(HeldPart(s, kept[..m]), RestPart(s, kept[..m]), kept[m]);
      assert HeldPart(s, kept[..m]) + [] == HeldPart(s, kept[..m]);
      assert RestPart(s, kept[..m]) + [] == RestPart(s, kept[..m]);
    }
  }

  lemma LastApart(kept: seq<Kept>, before: seq<Kept>)
    requires DistinctIds(kept) && kept != [] && forall p :: p in before ==> p in kept[..|kept| - 1]
    ensures kept[|kept| - 1].id !in Ids(before)
  {
    var m := |kept| - 1;
    forall p | p in before
      ensures p.id != kept[m].id
    {
      var k :| 0 <= k < m && kept[..m][k] == p;
      assert kept[k].id != kept[m].id;
    }
  }

  /** Whatever order a read's pieces are offered in, each no older than the document
      held of its id: the set ends as the newest n of its other documents and the
      pieces offered. */
  lemma SetEndsNewest(s: seq<Kept>, kept: seq<Kept>, n: nat)
    requires Ordered(s) && DistinctIds(s) && |s| <= n && DistinctIds(kept)
    requires forall p :: p in kept ==> NotOlder(s, p)
    ensures OfferAll(s, HeldFirst(s, kept), n) == Newest(Overlaid(s, kept), n)
  {
    hide Newer, Take, Put, Place, HeldPart, RestPart, NotOlder, Ordered, DistinctIds;
    var offers := HeldFirst(s, kept);
    EachOnce(s, kept);
    SameElements(offers, kept);
    OffersDistinct(s, kept);
    OfferTakes(s, offers, n);
    PutAllHolds(s, offers);
    OverlaidDistinct(s, kept);
    var sorted := PlaceAll([], Overlaid(s, kept));
    PlacedInOrder(Overlaid(s, kept));
    SameElements(sorted, Overlaid(s, kept));
    assert Ids(offers) == Ids(kept);
    OrderUnique(PutAll(s, offers), sorted);
  }

  lemma OverlaidDistinct(s: seq<Kept>, kept: seq<Kept>)
    requires Ordered(s) && DistinctIds(s) && DistinctIds(kept)
    ensures DistinctIds(Overlaid(s, kept))
  {
    hide Newer, Ordered;
    var others := Others(s, Ids(kept));
    OthersKept(s, Ids(kept));
    forall i, j | 0 <= i < j < |others + kept|
      ensures (others + kept)[i].id != (others + kept)[j].id
    {
      assert i < |others| ==> others[i] in others;
      assert j >= |others| ==> kept[j - |others|] in kept;
    }
  }

  // ---------------------------------------------------------------- Full reads

  /** Each document the set holds has its row in the table, no older. */
  ghost predicate Covers(table: seq<Kept>, s: seq<Kept>) {
    forall q :: q in s ==> exists p :: p in table && p.id == q.id && q.at <= p.at
  }

  /** A full read offers the newest n rows of the table it writes. When its rows cover
      the set's documents, the set ends holding exactly those. */
  lemma FullReadLeavesNewest(s: seq<Kept>, table: seq<Kept>, n: nat)
    requires Ordered(s) && DistinctIds(s) && |s| <= n && DistinctIds(table) && Covers(table, s)
    ensures OfferAll(s, HeldFirst(s, Newest(table, n)), n) == Newest(table, n)
  {
    hide Newer, Place, HeldFirst, OfferAll;
    var sorted, kept := PlaceAll([], table), Newest(table, n);
    PlacedInOrder(table);
    SameElements(sorted, table);
    OrderedDistinct(sorted, table);
    assert Ordered(kept) && DistinctIds(kept);
    forall p | p in kept
      ensures NotOlder(s, p)
    {
      OneRow(s, table, p);
    }
    SetEndsNewest(s, kept, n);
    OthersKept(s, Ids(kept));
    OverlaidDistinct(s, kept);
    var others := Others(s, Ids(kept));
    forall q | q in others
      ensures |kept| == n && forall k :: k in kept ==> Newer(k, q)
    {
      OtherOlder(table, sorted, kept, n, s, q);
    }
    KeptFirst(others, kept, n);
  }

  lemma OneRow(s: seq<Kept>, table: seq<Kept>, p: Kept)
    requires DistinctIds(table) && Covers(table, s) && p in table
    ensures NotOlder(s, p)
  {
    forall q | q in s && q.id == p.id
      ensures q.at <= p.at
    {
      var r :| r in table && r.id == q.id && q.at <= r.at;
      assert r == p;
    }
  }

  lemma OtherOlder(table: seq<Kept>, sorted: seq<Kept>, kept: seq<Kept>, n: nat, s: seq<Kept>, q: Kept)
    requires Ordered(sorted) && kept == Take(sorted, n) && (forall p :: p in sorted <==> p in table)
    requires Covers(table, s) && q in s && q.id !in Ids(kept)
    ensures |kept| == n && forall k :: k in kept ==> Newer(k, q)
  {
    hide Newer;
    var p :| p in table && p.id == q.id && q.at <= p.at;
    assert p in sorted && p !in kept;
    var j :| 0 <= j < |sorted| && sorted[j] == p;
    forall k | k in kept
      ensures Newer(k, q)
    {
      var i :| 0 <= i < |kept| && kept[i] == k;
      assert sorted[i] == k && i < j;
      NewerThanOlder(k, p, q);
    }
  }

  lemma NewerThanOlder(k: Kept, p: Kept, q: Kept)
    requires Newer(k, p) && p.id == q.id && q.at <= p.at
    ensures Newer(k, q)
  {
  }

  lemma KeptFirst(others: seq<Kept>, kept: seq<Kept>, n: nat)
    requires Ordered(others) && Ordered(kept) && DistinctIds(others + kept) && |kept| <= n
    requires forall q :: q in others ==> |kept| == n && forall k :: k in kept ==> Newer(k, q)
    ensures Newest(others + kept, n) == kept
  {
    hide Newer, Place, DistinctIds;
    var sorted := PlaceAll([], others + kept);
    PlacedInOrder(others + kept);
    SameElements(sorted, others + kept);
    forall i, j | 0 <= i < j < |kept + others|
      ensures Newer((kept + others)[i], (kept + others)[j])
    {
      assert i < |kept| ==> kept[i] in kept;
      assert j >= |kept| ==> others[j - |kept|] in others;
    }
    OrderUnique(sorted, kept + others);
    assert others != [] ==> others[0] in others;
    assert others == [] ==> kept + others == kept;
  }

  // ---------------------------------------------------------------- Rows that are gone

  function Elements(s: seq<Kept>): set<Kept> {
    set p | p in s
  }

  lemma {:induction false} ElementsCount(s: seq<Kept>)
    requires DistinctIds(s)
    ensures |Elements(s)| == |s|
  {
    if s != [] {
      var n := |s| - 1;
      ElementsCount(s[..n]);
      LastApart(s, s[..n]);
      assert s == s[..n] + [s[n]];
      assert Elements(s) == Elements(s[..n]) + {s[n]};
    }
  }

  /** Among pieces in order, one has as many before it as are newer. */
  lemma PlaceIsNewer(s: seq<Kept>, j: nat)
    requires Ordered(s) && DistinctIds(s) && j < |s|
    ensures j == |set q | q in s && Newer(q, s[j])|
  {
    hide Newer;
    var before := s[..j];
    assert DistinctIds(before) by {
      assert forall i :: 0 <= i < j ==> before[i] == s[i];
    }
    ElementsCount(before);
    forall q | q in s && Newer(q, s[j])
      ensures q in before
    {
      var k :| 0 <= k < |s| && s[k] == q;
      NotBoth(s[j], q);
      NotBoth(q, q);
      assert before == s[..j] && (k < j ==> before[k] == q);
    }
    forall q | q in before
      ensures q in s && Newer(q, s[j])
    {
      var k :| 0 <= k < j && before[k] == q;
      assert s[k] == q;
    }
    assert Elements(before) == set q | q in s && Newer(q, s[j]);
  }

  lemma {:induction false} OnlyPrefix(s: seq<Kept>, k: nat, ids: set<string>)
    requires k <= |s|
    ensures Only(s[..k], ids) <= Only(s, ids)
    decreases |s|
  {
    if k < |s| {
      OnlyPrefix(s[..|s| - 1], k, ids);
      assert s[..|s| - 1][..k] == s[..k];
    } else {
      assert s[..k] == s;
    }
  }

  /** Keeping the newest n of some others and some pieces in order, then those pieces alone,
      keeps the first of them: all, exactly when the last and those newer are n at most. */
  lemma KeptPrefix(others: seq<Kept>, kept: seq<Kept>, n: nat)
    requires Ordered(others) && Ordered(kept) && kept != [] && DistinctIds(others + kept)
    ensures var final, last := Only(Newest(others + kept, n), Ids(kept)), kept[|kept| - 1];
            && final <= kept
            && (final == kept <==> |kept| + |set q | q in others && Newer(q, last)| <= n)
  {
    hide Newer, Place, DistinctIds, Ordered, PlaceAll, Take;
    var all, last := others + kept, kept[|kept| - 1];
    var sorted := PlaceAll([], all);
    PlacedInOrder(all);
    SameElements(sorted, all);
    OrderedDistinct(sorted, all);
    OnlyTheKept(others, kept, sorted);
    var j := PlaceOfLast(others, kept, sorted);
    var taken := Take(sorted, n);
    TakeIs(sorted, n);
    OnlyPrefix(sorted, |taken|, Ids(kept));
    TakenKept(sorted, taken, Ids(kept), kept, Only(taken, Ids(kept)), j);
  }

  lemma TakeIs(s: seq<Kept>, n: nat)
    ensures Take(s, n) == s[..|Take(s, n)|] && |Take(s, n)| == if |s| <= n then |s| else n
  {
  }

  lemma OnlyTheKept(others: seq<Kept>, kept: seq<Kept>, sorted: seq<Kept>)
    requires Ordered(kept) && Ordered(sorted) && DistinctIds(sorted) && DistinctIds(others + kept)
    requires forall p :: p in sorted <==> p in others + kept
    ensures Only(sorted, Ids(kept)) == kept
  {
    hide Newer;
    OnlyKept(sorted, Ids(kept));
    forall p | p in others
      ensures p.id !in Ids(kept)
    {
      Apart(others, kept, p);
    }
    OrderUnique(Only(sorted, Ids(kept)), kept);
  }

  lemma Apart(others: seq<Kept>, kept: seq<Kept>, p: Kept)
    requires DistinctIds(others + kept) && p in others
    ensures p.id !in Ids(kept)
  {
    var i :| 0 <= i < |others| && others[i] == p;
    forall q | q in kept
      ensures q.id != p.id
    {
      var j :| 0 <= j < |kept| && kept[j] == q;
      assert (others + kept)[i] == p && (others + kept)[|others| + j] == q;
    }
  }

  lemma PlaceOfLast(others: seq<Kept>, kept: seq<Kept>, sorted: seq<Kept>) returns (j: nat)
    requires Ordered(kept) && kept != [] && Ordered(sorted) && DistinctIds(sorted) && DistinctIds(others + kept)
    requires forall p :: p in sorted <==> p in others + kept
    ensures j < |sorted| && sorted[j] == kept[|kept| - 1]
    ensures j + 1 == |kept| + |set q | q in others && Newer(q, kept[|kept| - 1])|
  {
    hide Newer;
    var n := |kept| - 1;
    var last := kept[n];
    assert last in kept && last in sorted;
    j :| 0 <= j < |sorted| && sorted[j] == last;
    PlaceIsNewer(sorted, j);
    KeptDistinct(others, kept);
    PlaceIsNewer(kept, n);
    var mine, theirs := set q | q in kept && Newer(q, last), set q | q in others && Newer(q, last);
    assert (set q | q in sorted && Newer(q, last)) == mine + theirs;
    forall q | q in theirs
      ensures q !in mine
    {
      Apart(others, kept, q);
    }
    assert mine !! theirs;
  }

  lemma KeptDistinct(others: seq<Kept>, kept: seq<Kept>)
    requires DistinctIds(others + kept)
    ensures DistinctIds(kept)
  {
    assert forall i :: 0 <= i < |kept| ==> (others + kept)[|others| + i] == kept[i];
  }

  lemma PrefixKept(s: seq<Kept>, part: seq<Kept>)
    requires part <= s && Ordered(s) && DistinctIds(s)
    ensures Ordered(part) && DistinctIds(part)
  {
    hide Newer;
  }

  lemma OnePlace(s: seq<Kept>, i: nat, j: nat)
    requires DistinctIds(s) && i < |s| && j < |s| && s[i] == s[j]
    ensures i == j
  {
  }

  lemma TakenKept(sorted: seq<Kept>, taken: seq<Kept>, ids: set<string>, kept: seq<Kept>, final: seq<Kept>, j: nat)
    requires taken <= sorted && DistinctIds(sorted) && Ordered(sorted) && kept != [] && j < |sorted|
    requires kept == Only(sorted, ids) && final == Only(taken, ids) && final <= kept && sorted[j] == kept[|kept| - 1]
    ensures final == kept <==> j < |taken|
  {
    hide Newer, DistinctIds, Ordered, Only;
    var last := kept[|kept| - 1];
    PrefixKept(sorted, taken);
    OnlyKept(taken, ids);
    OnlyKept(sorted, ids);
    assert last in kept;
    if j < |taken| {
      assert taken[j] == last && last in final;
      var k :| 0 <= k < |final| && final[k] == last;
      OnePlace(kept, k, |kept| - 1);
    } else if final == kept {
      var k :| 0 <= k < |taken| && taken[k] == last;
      OnePlace(sorted, k, j);
    }
  }

  lemma NewestKept(ps: seq<Kept>, n: nat)
    requires DistinctIds(ps)
    ensures Ordered(Newest(ps, n)) && DistinctIds(Newest(ps, n))
  {
    hide Newer, Place, PlaceAll, DistinctIds, Ordered;
    var sorted := PlaceAll([], ps);
    PlacedInOrder(ps);
    OrderedDistinct(sorted, ps);
    TakeIs(sorted, n);
    PrefixKept(sorted, Newest(ps, n));
  }

  /** A full read of a table, its rows no older than the documents held of their ids: those
      it did not offer removed, the set ends as the first of the newest n rows, newest first;
      all of them exactly when the oldest of them, with every piece newer, whose row may be
      gone, comes within n. */
  lemma FullReadEnds(s: seq<Kept>, table: seq<Kept>, n: nat)
    requires Ordered(s) && DistinctIds(s) && |s| <= n && DistinctIds(table)
    requires forall p :: p in Newest(table, n) ==> NotOlder(s, p)
    ensures var kept := Newest(table, n);
            var final := Only(OfferAll(s, HeldFirst(s, kept), n), Ids(kept));
            && final <= kept
            && (kept != [] ==>
                  (final == kept
                   <==> |kept| + |set q | q in Others(s, Ids(kept)) && Newer(q, kept[|kept| - 1])| <= n))
  {
    hide Newer, HeldFirst, OfferAll, Newest, NotOlder, Ordered, DistinctIds, Only, Ids, Others;
    var kept := Newest(table, n);
    NewestKept(table, n);
    SetEndsNewest(s, kept, n);
    OthersKept(s, Ids(kept));
    OverlaidDistinct(s, kept);
    if kept != [] {
      KeptPrefix(Others(s, Ids(kept)), kept, n);
    } else {
      NoIds();
      NoneOnly(Newest(Overlaid(s, kept), n));
    }
  }

  lemma NoIds()
    ensures Ids([]) == {}
  {
  }

  lemma {:induction false} NoneOnly(s: seq<Kept>)
    ensures Only(s, {}) == []
  {
    if s != [] {
      NoneOnly(s[..|s| - 1]);
    }
  }
}
