/** The file lists of connector/s3_changes.go: what a table's snapshot was read
    from, and whether the files listed since only append to it. */
module FileLists {
  import opened Options
  import opened Utf8

  datatype File = File(key: string, etag: string, size: int)

  /** A table's files as sorted 8-byte hashes, and their greatest key. */
  datatype FileList = FileList(raw: seq<byte>, last: string)

  datatype Reason = Unreadable | NoETags | AmongEarlier(key: string) | Gone

  const HASH_BOUND: nat := 0x1_0000_0000_0000_0000

  type hash = x: nat | x < HASH_BOUND

  // ---------------------------------------------------------------- Eight bytes

  function Pow256(k: nat): (p: nat)
    ensures p > 0
  {
    if k == 0 then 1 else 0x100 * Pow256(k - 1)
  }

  /** The last k bytes of a number, the greatest first. */
  function BigEndian(n: nat, k: nat): (bytes: seq<byte>)
    ensures |bytes| == k
  {
    if k == 0 then [] else BigEndian(n / 0x100, k - 1) + [n % 0x100]
  }

  function Number(bytes: seq<byte>): nat {
    if bytes == [] then 0 else Number(bytes[..|bytes| - 1]) * 0x100 + bytes[|bytes| - 1]
  }

  lemma {:induction false} BigEndianReads(n: nat, k: nat)
    requires n < Pow256(k)
    ensures Number(BigEndian(n, k)) == n
  {
    if k > 0 {
      BigEndianReads(n / 0x100, k - 1);
      var before := BigEndian(n / 0x100, k - 1);
      assert (before + [n % 0x100])[..k - 1] == before;
    }
  }

  function Encode8(h: hash): (bytes: seq<byte>)
    ensures |bytes| == 8
  {
    BigEndian(h, 8)
  }

  lemma NumberEncode8(h: hash)
    ensures Number(Encode8(h)) == h
  {
    assert Pow256(8) == HASH_BOUND by {
      assert Pow256(4) == 0x1_0000_0000;
    }
    BigEndianReads(h, 8);
  }

  function EncodeAll(hashes: seq<hash>): (raw: seq<byte>)
    ensures |raw| == 8 * |hashes|
  {
    if hashes == [] then [] else EncodeAll(hashes[..|hashes| - 1]) + Encode8(hashes[|hashes| - 1])
  }

  /** The hashes a list's bytes hold; None when they are not whole. */
  function DecodeAll(raw: seq<byte>): Option<seq<nat>> {
    if raw == [] then Some([])
    else if |raw| < 8 then None
    else
      var before := DecodeAll(raw[..|raw| - 8]);
      if before.None? then None else Some(before.value + [Number(raw[|raw| - 8..])])
  }

  /** The list's encoding decodes to the hashes it was given. */
  lemma {:induction false} DecodeEncodes(hashes: seq<hash>)
    ensures DecodeAll(EncodeAll(hashes)) == Some(hashes)
  {
    hide Encode8, Number;
    if hashes != [] {
      var n := |hashes| - 1;
      DecodeEncodes(hashes[..n]);
      NumberEncode8(hashes[n]);
      var before, last := EncodeAll(hashes[..n]), Encode8(hashes[n]);
      assert (before + last)[..|before|] == before && (before + last)[|before|..] == last;
      assert hashes == hashes[..n] + [hashes[n]];
    }
  }

  // ---------------------------------------------------------------- Sorting hashes

  function Inserted(s: seq<hash>, h: hash): seq<hash> {
    if s == [] || s[|s| - 1] <= h then s + [h] else Inserted(s[..|s| - 1], h) + [s[|s| - 1]]
  }

  function SortedHashes(s: seq<hash>): seq<hash> {
    if s == [] then [] else Inserted(SortedHashes(s[..|s| - 1]), s[|s| - 1])
  }

  predicate Increasing(s: seq<hash>) {
    forall i, j :: 0 <= i < j < |s| ==> s[i] <= s[j]
  }

  lemma {:induction false} InsertedHolds(s: seq<hash>, h: hash)
    ensures multiset(Inserted(s, h)) == multiset(s) + multiset{h}
    ensures forall x :: x in Inserted(s, h) <==> x == h || x in s
  {
    if s != [] && s[|s| - 1] > h {
      var n := |s| - 1;
      InsertedHolds(s[..n], h);
      assert s == s[..n] + [s[n]];
    }
  }

  lemma {:induction false} InsertedSorts(s: seq<hash>, h: hash)
    requires Increasing(s)
    ensures Increasing(Inserted(s, h))
  {
    if s != [] && s[|s| - 1] > h {
      var n := |s| - 1;
      var before := Inserted(s[..n], h);
      InsertedSorts(s[..n], h);
      InsertedHolds(s[..n], h);
      forall i | 0 <= i < |before|
        ensures before[i] <= s[n]
      {
        assert before[i] in before;
      }
      hide Inserted;
      assert Increasing(before + [s[n]]);
    }
  }

  /** Sorting puts the hashes in order and keeps each as often as it was. */
  lemma {:induction false} SortedSorts(s: seq<hash>)
    ensures Increasing(SortedHashes(s)) && multiset(SortedHashes(s)) == multiset(s)
    ensures forall x :: x in SortedHashes(s) <==> x in s
  {
    hide Inserted, Increasing;
    if s == [] {
      assert Increasing([]) by { NoneIncreasing(); }
    } else {
      var n := |s| - 1;
      SortedSorts(s[..n]);
      InsertedSorts(SortedHashes(s[..n]), s[n]);
      InsertedHolds(SortedHashes(s[..n]), s[n]);
      assert s == s[..n] + [s[n]];
    }
  }

  lemma NoneIncreasing()
    ensures Increasing([])
  {
  }

  // ---------------------------------------------------------------- Lists

  /** fileHash gives different files among these different hashes. */
  ghost predicate HashedApart(files: seq<File>, fileHash: File -> hash) {
    forall a, b :: a in files && b in files && fileHash(a) == fileHash(b) ==> a == b
  }

  function PlaceIn(files: seq<File>, f: File): (k: nat)
    ensures k < |files| <==> f in files
    ensures k <= |files| && (k < |files| ==> files[k] == f)
  {
    if files == [] || files[0] == f then 0 else 1 + PlaceIn(files[1..], f)
  }

  /** Some hash keeps apart any files there are no more of than hashes. */
  lemma HashesKeepApart(files: seq<File>)
    requires |files| <= HASH_BOUND
    ensures exists fileHash: File -> hash :: HashedApart(files, fileHash)
  {
    var fileHash: File -> hash := f => if PlaceIn(files, f) < |files| then PlaceIn(files, f) else 0;
    assert HashedApart(files, fileHash);
  }

  function Greater(a: string, b: string): string {
    if NameBelow(a, b) then b else a
  }

  function HashesOf(files: seq<File>, fileHash: File -> hash): (hashes: seq<hash>)
    ensures |hashes| == |files| && forall i :: 0 <= i < |files| ==> hashes[i] == fileHash(files[i])
  {
    seq(|files|, i requires 0 <= i < |files| => fileHash(files[i]))
  }

  /** The greatest key, "" for no files. */
  function LastKey(files: seq<File>): string {
    if files == [] then "" else Greater(LastKey(files[..|files| - 1]), files[|files| - 1].key)
  }

  method ListOf(files: seq<File>, fileHash: File -> hash) returns (l: FileList)
    ensures l == FileList(EncodeAll(SortedHashes(HashesOf(files, fileHash))), LastKey(files))
  {
    hide SortedHashes, Greater;
    var hashes := new hash[|files|](_ => 0);
    var last := "";
    for i := 0 to |files|
      invariant hashes[..i] == HashesOf(files[..i], fileHash)
      invariant last == LastKey(files[..i])
    {
      hashes[i] := fileHash(files[i]);
      assert files[..i + 1][..i] == files[..i];
      last := Greater(last, files[i].key);
    }
    assert files[..|files|] == files && hashes[..|files|] == hashes[..];
    return FileList(EncodeAll(SortedHashes(hashes[..])), last);
  }

  /** What ListOf records decodes to exactly the files' hashes. */
  lemma ListDecodes(files: seq<File>, fileHash: File -> hash)
    ensures var decoded := DecodeAll(EncodeAll(SortedHashes(HashesOf(files, fileHash))));
            decoded.Some? && multiset(decoded.value) == multiset(HashesOf(files, fileHash))
    ensures var decoded := DecodeAll(EncodeAll(SortedHashes(HashesOf(files, fileHash))));
            decoded.Some? && forall x :: x in decoded.value <==> x in HashesOf(files, fileHash)
  {
    hide DecodeAll, EncodeAll, SortedHashes;
    SortedSorts(HashesOf(files, fileHash));
    DecodeEncodes(SortedHashes(HashesOf(files, fileHash)));
  }

  // ---------------------------------------------------------------- What was appended

  /** The files that are not among the earlier ones. */
  function Added(earlier: seq<File>, files: seq<File>): seq<File> {
    if files == [] then []
    else Added(earlier, files[..|files| - 1])
         + if files[|files| - 1] in earlier then [] else [files[|files| - 1]]
  }

  predicate DistinctKeys(files: seq<File>) {
    forall i, j :: 0 <= i < j < |files| ==> files[i].key != files[j].key
  }

  /** Every earlier file is there still, and every other sorts after them all. */
  predicate Appends(earlier: seq<File>, files: seq<File>) {
    && (forall f :: f in earlier ==> f in files)
    && forall f :: f in files && f !in earlier ==> NameBelow(LastKey(earlier), f.key)
  }

  predicate AllTagged(files: seq<File>) {
    forall f :: f in files ==> f.etag != ""
  }

  /** The files added since the list was taken, or why the table must be read in
      full: of a list taken of earlier, and files of distinct keys. */
  method Appended(l: FileList, files: seq<File>, fileHash: File -> hash, ghost earlier: seq<File>)
    returns (added: seq<File>, reason: Option<Reason>)
    requires HashedApart(earlier + files, fileHash) && DistinctKeys(files)
    requires l == FileList(EncodeAll(SortedHashes(HashesOf(earlier, fileHash))), LastKey(earlier))
    ensures reason == None <==> AllTagged(files) && Appends(earlier, files)
    ensures reason == None ==> added == Added(earlier, files)
  {
    hide DecodeAll, EncodeAll, SortedHashes, LastKey, NameBelow;
    ListDecodes(earlier, fileHash);
    var decoded := DecodeAll(l.raw);
    if decoded.None? {
      return [], Some(Unreadable);
    }
    var left: set<nat> := set h | h in decoded.value;
    added := [];
    for i := 0 to |files|
      invariant AllTagged(files[..i])
      invariant forall f :: f in files[..i] && f !in earlier ==> NameBelow(l.last, f.key)
      invariant forall f :: f in earlier ==> (fileHash(f) in left <==> f !in files[..i])
      invariant forall h :: h in left ==> exists f :: f in earlier && fileHash(f) == h
      invariant added == Added(earlier, files[..i])
    {
      var o := files[i];
      assert files[..i + 1][..i] == files[..i];
      FreshKey(files, i);
      if o.etag == "" {
        assert o in files;
        return [], Some(NoETags);
      }
      var h := fileHash(o);
      if h in left {
        left := left - {h};
      } else if !NameBelow(l.last, o.key) {
        assert o in files && o !in earlier;
        return [], Some(AmongEarlier(o.key));
      } else {
        added := added + [o];
      }
    }
    assert files[..|files|] == files;
    if left != {} {
      return [], Some(Gone);
    }
    return added, None;
  }

  lemma FreshKey(files: seq<File>, i: nat)
    requires DistinctKeys(files) && i < |files|
    ensures files[i] !in files[..i]
  {
  }

  // ---------------------------------------------------------------- What appending means

  /** The files in key order, each once. */
  ghost predicate KeySorted(sorted: seq<File>, files: seq<File>) {
    InKeyOrder(sorted) && forall f :: f in sorted <==> f in files
  }

  lemma {:induction false} LastIsGreatest(files: seq<File>)
    ensures forall f :: f in files ==> f.key == LastKey(files) || NameBelow(f.key, LastKey(files))
    ensures files != [] ==> LastKey(files) == "" || exists f :: f in files && f.key == LastKey(files)
  {
    hide NameBelow;
    if files != [] {
      var n := |files| - 1;
      LastIsGreatest(files[..n]);
      assert files == files[..n] + [files[n]];
      Compare(LastKey(files[..n]), files[n].key);
      forall f | f in files[..n] && NameBelow(f.key, LastKey(files[..n])) && NameBelow(LastKey(files[..n]), files[n].key)
        ensures NameBelow(f.key, files[n].key)
      {
        NamesTransitive(f.key, LastKey(files[..n]), files[n].key);
      }
      assert files[n] in files;
    }
  }

  lemma Compare(a: string, b: string)
    ensures NameBelow(a, b) || a == b || NameBelow(b, a)
    ensures !(NameBelow(a, b) && NameBelow(b, a)) && !NameBelow(a, a)
  {
    NamesTotal(a, b);
    NamesTotal(a, a);
  }

  /** A key sorts after every earlier file's exactly when it sorts after the last key,
      but for the empty key after no files. */
  lemma AfterAll(earlier: seq<File>, key: string)
    requires earlier != [] || key != ""
    ensures NameBelow(LastKey(earlier), key) <==> forall f :: f in earlier ==> NameBelow(f.key, key)
  {
    hide NameBelow;
    LastIsGreatest(earlier);
    EmptyFirst(key);
    assert earlier != [] ==> earlier[0] in earlier;
    forall f | f in earlier && NameBelow(LastKey(earlier), key)
      ensures NameBelow(f.key, key)
    {
      if f.key != LastKey(earlier) {
        NamesTransitive(f.key, LastKey(earlier), key);
      }
    }
  }

  lemma EmptyFirst(key: string)
    ensures NameBelow("", key) <==> key != ""
    ensures forall other :: key == "" ==> !NameBelow(other, key)
  {
  }

  /** No file is an object of the empty key added to none. */
  predicate NotTheEmptyKeyFirst(earlier: seq<File>, files: seq<File>) {
    earlier != [] || forall f :: f in files ==> f.key != ""
  }

  /** A table's files only append to its earlier ones exactly when, in key order, they
      are the earlier ones followed by others: the ones Added returns. The one exception
      is an object of the empty key, which no store lists, added to none. */
  lemma AppendsIsPrefix(earlier: seq<File>, files: seq<File>, was: seq<File>, now: seq<File>)
    requires KeySorted(was, earlier) && KeySorted(now, files)
    ensures (Appends(earlier, files) <==> was <= now) <==> NotTheEmptyKeyFirst(earlier, files)
    ensures was <= now ==> forall f :: f in Added(earlier, files) <==> f in now[|was|..]
  {
    hide NameBelow, LastKey, Added, KeySorted;
    AddedIs(earlier, files);
    if NotTheEmptyKeyFirst(earlier, files) {
      AppendsInOrder(earlier, files, was, now);
    } else {
      EmptyKeyRefused(files, was, now);
    }
  }

  lemma AppendsInOrder(earlier: seq<File>, files: seq<File>, was: seq<File>, now: seq<File>)
    requires KeySorted(was, earlier) && KeySorted(now, files) && NotTheEmptyKeyFirst(earlier, files)
    ensures Appends(earlier, files) <==> was <= now
    ensures was <= now ==> forall f :: f in files && f !in earlier <==> f in now[|was|..]
  {
    hide NameBelow, LastKey;
    forall f | f in files
      ensures NameBelow(LastKey(earlier), f.key) <==> forall e :: e in earlier ==> NameBelow(e.key, f.key)
    {
      AfterAll(earlier, f.key);
    }
    if Appends(earlier, files) {
      LeadingEarlier(now, was);
    }
    if was <= now {
      PrefixAppends(was, now, earlier, files);
    }
  }

  lemma {:induction false} AddedIs(earlier: seq<File>, files: seq<File>)
    ensures forall f :: f in Added(earlier, files) <==> f in files && f !in earlier
  {
    if files != [] {
      var n := |files| - 1;
      AddedIs(earlier, files[..n]);
      assert files == files[..n] + [files[n]];
    }
  }

  predicate InKeyOrder(files: seq<File>) {
    forall i, j :: 0 <= i < j < |files| ==> NameBelow(files[i].key, files[j].key)
  }

  /** Among files in order, with some before all others, those come first. */
  lemma {:induction false} LeadingEarlier(now: seq<File>, was: seq<File>)
    requires InKeyOrder(now) && InKeyOrder(was) && forall f :: f in was ==> f in now
    requires forall e, f :: e in was && f in now && f !in was ==> NameBelow(e.key, f.key)
    ensures was <= now
  {
    hide NameBelow;
    if was != [] {
      assert was[0] in was && was[0] in now && now[0] in now;
      FirstIs(now, was);
      RestApart(now);
      RestApart(was);
      hide InKeyOrder;
      LeadingEarlier(now[1..], was[1..]);
    }
  }

  lemma RestApart(files: seq<File>)
    requires files != [] && InKeyOrder(files)
    ensures InKeyOrder(files[1..]) && files == [files[0]] + files[1..]
    ensures forall f :: f in files[1..] <==> f in files && f != files[0]
  {
    hide NameBelow;
    Compare(files[0].key, files[0].key);
    assert files == [files[0]] + files[1..];
  }

  lemma FirstIs(now: seq<File>, was: seq<File>)
    requires InKeyOrder(now) && InKeyOrder(was) && was != [] && now != [] && was[0] in now
    requires forall e, f :: e in was && f in now && f !in was ==> NameBelow(e.key, f.key)
    ensures now[0] == was[0]
  {
    hide NameBelow;
    var k :| 0 <= k < |now| && now[k] == was[0];
    Compare(now[0].key, was[0].key);
    assert now[0] in now && was[0] in was;
    if now[0] in was {
      var i :| 0 <= i < |was| && was[i] == now[0];
    }
  }

  lemma PrefixAppends(was: seq<File>, now: seq<File>, earlier: seq<File>, files: seq<File>)
    requires KeySorted(was, earlier) && KeySorted(now, files) && was <= now
    requires forall f :: f in files ==>
               (NameBelow(LastKey(earlier), f.key) <==> forall e :: e in earlier ==> NameBelow(e.key, f.key))
    ensures Appends(earlier, files)
    ensures forall f :: f in files && f !in earlier <==> f in now[|was|..]
  {
    hide NameBelow, LastKey;
    forall f | f in earlier
      ensures f in files
    {
      assert f in was;
      assert f in now;
    }
    forall f
      ensures f in files && f !in earlier <==> f in now[|was|..]
      ensures f in files && f !in earlier ==> forall e :: e in earlier ==> NameBelow(e.key, f.key)
    {
      PlaceOf(was, now, f);
    }
  }

  lemma PlaceOf(was: seq<File>, now: seq<File>, f: File)
    requires was <= now && InKeyOrder(now)
    ensures f in now && f !in was <==> f in now[|was|..]
    ensures f in now && f !in was ==> forall e :: e in was ==> NameBelow(e.key, f.key)
  {
    hide NameBelow;
    Compare(f.key, f.key);
    assert now == was + now[|was|..];
    forall e | e in was && f in now[|was|..]
      ensures NameBelow(e.key, f.key)
    {
      var i :| 0 <= i < |was| && was[i] == e;
      var j :| |was| <= j < |now| && now[j] == f;
      assert now[i] == e;
    }
    assert f in was && f in now[|was|..] ==> NameBelow(f.key, f.key);
  }

  /** Added to none, an object of the empty key is refused, though any files follow none. */
  lemma EmptyKeyRefused(files: seq<File>, was: seq<File>, now: seq<File>)
    requires KeySorted(was, []) && KeySorted(now, files) && exists f :: f in files && f.key == ""
    ensures !Appends([], files) && was == [] && forall f :: f in now <==> f in files
  {
    SomeFile(was);
    EmptyFirst("");
    assert LastKey([]) == "";
  }

  lemma SomeFile(files: seq<File>)
    ensures files != [] ==> exists f :: f in files
  {
    if files != [] {
      assert files[0] in files;
    }
  }
}
