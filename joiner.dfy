/** The entity joiner: `mangasByIDs` puts the metadata lookup back into the
    order of the requested IDs, and `addAuthors` resolves every manga's
    author IDs through one batched lookup and attaches the results. */
module Joiner {
  import opened Entities
  import opened Transport

  // ---------------------------------------------------------------------------
  // mangasByIDs
  // ---------------------------------------------------------------------------

  /** The mangas of `mangaMap` named by `ids`, in the order of `ids`; an ID
      that is not a key is dropped. */
  ghost function Select(ids: seq<string>, mangaMap: map<string, Manga>): seq<Manga>
  {
    if ids == [] then []
    else
      var last := ids[|ids| - 1];
      Select(ids[..|ids| - 1], mangaMap) + (if last in mangaMap then [mangaMap[last]] else [])
  }

  /** Walks `ids` in order and keeps `mangaMap[id]` for every `id` that is a
      key; a failed lookup request is the only error. */
  method MangasByIDs(ids: seq<string>, meta: Exchange<map<string, Manga>>) returns (r: Result<seq<Manga>>)
    ensures r.Ok? <==> Receive(meta).Ok?
    ensures r.Err? ==> r.error == Receive(meta).error
    ensures r.Ok? ==> r.value == Select(ids, Receive(meta).value)
  {
    var res := Receive(meta);
    if res.Err? {
      return Err(res.error);
    }
    var mangaMap := res.value;
    var mangas: seq<Manga> := [];
    for i := 0 to |ids|
      invariant mangas == Select(ids[..i], mangaMap)
    {
      assert ids[..i + 1][..i] == ids[..i];
      if ids[i] in mangaMap {
        mangas := mangas + [mangaMap[ids[i]]];
      }
    }
    assert ids[..|ids|] == ids;
    return Ok(mangas);
  }

  /** Selecting from a prefix of the IDs gives a prefix of the selection. */
  lemma {:induction false} SelectPrefix(ids: seq<string>, mangaMap: map<string, Manga>, j: nat)
    requires j <= |ids|
    ensures Select(ids[..j], mangaMap) <= Select(ids, mangaMap)
    decreases |ids|
  {
    if j < |ids| {
      var init := ids[..|ids| - 1];
      assert init[..j] == ids[..j];
      SelectPrefix(init, mangaMap, j);
    } else {
      assert ids[..j] == ids;
    }
  }

  /** At most one output per requested ID, and exactly one per ID when every
      requested ID is a key. */
  lemma {:induction false} SelectLength(ids: seq<string>, mangaMap: map<string, Manga>)
    ensures |Select(ids, mangaMap)| <= |ids|
    ensures |Select(ids, mangaMap)| == |ids| <==> forall k :: 0 <= k < |ids| ==> ids[k] in mangaMap
  {
    if ids != [] {
      var init := ids[..|ids| - 1];
      SelectLength(init, mangaMap);
      if forall k :: 0 <= k < |ids| ==> ids[k] in mangaMap {
        assert forall k :: 0 <= k < |init| ==> init[k] in mangaMap by {
          forall k | 0 <= k < |init| ensures init[k] in mangaMap {
            assert init[k] == ids[k];
          }
        }
      } else if ids[|ids| - 1] in mangaMap {
        var k :| 0 <= k < |ids| && ids[k] !in mangaMap;
        assert init[k] == ids[k];
      }
    }
  }

  /** The position in the output at which the ID at `ids[i]` lands: the number
      of known IDs before it. */
  ghost function Rank(ids: seq<string>, mangaMap: map<string, Manga>, i: nat): nat
    requires i <= |ids|
  {
    |Select(ids[..i], mangaMap)|
  }

  /** Every requested ID that is a key yields `mangaMap[id]` at its own
      position of the output, so duplicates give duplicate outputs. */
  lemma SelectAt(ids: seq<string>, mangaMap: map<string, Manga>, i: nat)
    requires i < |ids| && ids[i] in mangaMap
    ensures Rank(ids, mangaMap, i) < |Select(ids, mangaMap)|
    ensures Select(ids, mangaMap)[Rank(ids, mangaMap, i)] == mangaMap[ids[i]]
  {
    assert ids[..i + 1][..i] == ids[..i];
    assert Select(ids[..i + 1], mangaMap) == Select(ids[..i], mangaMap) + [mangaMap[ids[i]]];
    SelectPrefix(ids, mangaMap, i + 1);
  }

  /** The output keeps the order of the IDs: a known ID that comes later in
      `ids` lands strictly later in the output. */
  lemma {:induction false} SelectOrder(ids: seq<string>, mangaMap: map<string, Manga>, i: nat, j: nat)
    requires i < j <= |ids| && ids[i] in mangaMap
    ensures Rank(ids, mangaMap, i) < Rank(ids, mangaMap, j)
  {
    SelectPrefix(ids[..j], mangaMap, i + 1);
    assert ids[..j][..i + 1] == ids[..i + 1];
    assert ids[..i + 1][..i] == ids[..i];
    assert Select(ids[..i + 1], mangaMap) == Select(ids[..i], mangaMap) + [mangaMap[ids[i]]];
  }

  /** Every output is `mangaMap[ids[i]]` for a known ID at some position `i`
      whose rank is that output's position: nothing else appears. */
  lemma {:induction false} SelectOrigin(ids: seq<string>, mangaMap: map<string, Manga>, p: nat)
    requires p < |Select(ids, mangaMap)|
    ensures exists i :: 0 <= i < |ids| && ids[i] in mangaMap && Rank(ids, mangaMap, i) == p
                        && Select(ids, mangaMap)[p] == mangaMap[ids[i]]
  {
    var n := |ids| - 1;
    var init := ids[..n];
    assert ids[..n] == init;
    if p < |Select(init, mangaMap)| {
      SelectOrigin(init, mangaMap, p);
      var i :| 0 <= i < |init| && init[i] in mangaMap && Rank(init, mangaMap, i) == p
               && Select(init, mangaMap)[p] == mangaMap[init[i]];
      assert init[..i] == ids[..i];
      assert ids[i] == init[i];
    } else {
      assert ids[n] in mangaMap && p == |Select(init, mangaMap)|;
      assert Rank(ids, mangaMap, n) == p;
    }
  }

  // ---------------------------------------------------------------------------
  // addAuthors
  // ---------------------------------------------------------------------------

  /** Every manga's author IDs, concatenated in manga order, duplicates included. */
  ghost function AllAuthorIDs(mangas: seq<Manga>): seq<string>
  {
    if mangas == [] then []
    else AllAuthorIDs(mangas[..|mangas| - 1]) + mangas[|mangas| - 1].authorIDs
  }

  /** Builds the single author-lookup request of `addAuthors`. */
  method CollectAuthorIDs(mangas: array<Manga>) returns (ids: seq<string>)
    ensures ids == AllAuthorIDs(mangas[..])
  {
    ids := [];
    for i := 0 to mangas.Length
      invariant ids == AllAuthorIDs(mangas[..i])
    {
      assert mangas[..i + 1][..i] == mangas[..i];
      ids := ids + mangas[i].authorIDs;
    }
    assert mangas[..mangas.Length] == mangas[..];
  }

  /** The request holds each manga's author IDs as one block, in manga order:
      the block of manga `i` starts right after those of the mangas before it. */
  lemma {:induction false} AllAuthorIDsBlock(mangas: seq<Manga>, i: nat)
    requires i < |mangas|
    ensures AllAuthorIDs(mangas[..i]) + mangas[i].authorIDs <= AllAuthorIDs(mangas)
    decreases |mangas|
  {
    var n := |mangas| - 1;
    assert mangas[..i + 1][..i] == mangas[..i];
    if i < n {
      var init := mangas[..n];
      assert init[..i] == mangas[..i];
      AllAuthorIDsBlock(init, i);
    } else {
      assert mangas[..n] == mangas[..i];
    }
  }

  /** The author map of `addAuthors`: each author stored under its own ID, a
      later author replacing an earlier one with the same ID. */
  ghost function IndexByID(authors: seq<Author>): map<string, Author>
  {
    if authors == [] then map[]
    else
      var last := authors[|authors| - 1];
      IndexByID(authors[..|authors| - 1])[last.id := last]
  }

  method BuildAuthorMap(authors: seq<Author>) returns (authorMap: map<string, Author>)
    ensures authorMap == IndexByID(authors)
  {
    authorMap := map[];
    for i := 0 to |authors|
      invariant authorMap == IndexByID(authors[..i])
    {
      assert authors[..i + 1][..i] == authors[..i];
      authorMap := authorMap[authors[i].id := authors[i]];
    }
    assert authors[..|authors|] == authors;
  }

  /** The keys of the author map are exactly the IDs of the returned authors,
      and every entry is stored under its own ID. */
  lemma {:induction false} IndexByIDKeys(authors: seq<Author>, k: string)
    ensures k in IndexByID(authors) <==> exists j :: 0 <= j < |authors| && authors[j].id == k
    ensures k in IndexByID(authors) ==> IndexByID(authors)[k].id == k
  {
    if authors != [] {
      var n := |authors| - 1;
      var init := authors[..n];
      IndexByIDKeys(init, k);
      if exists j :: 0 <= j < |authors| && authors[j].id == k {
        var j :| 0 <= j < |authors| && authors[j].id == k;
        if j < n {
          assert init[j] == authors[j];
        }
      }
      if exists j :: 0 <= j < |init| && init[j].id == k {
        var j :| 0 <= j < |init| && init[j].id == k;
        assert authors[j] == init[j];
      }
    }
  }

  /** Under each ID the map holds the LAST returned author with that ID. */
  lemma {:induction false} IndexByIDLast(authors: seq<Author>, j: nat)
    requires j < |authors|
    requires forall l :: j < l < |authors| ==> authors[l].id != authors[j].id
    ensures authors[j].id in IndexByID(authors) && IndexByID(authors)[authors[j].id] == authors[j]
  {
    var n := |authors| - 1;
    if j < n {
      var init := authors[..n];
      assert init[j] == authors[j];
      forall l | j < l < |init| ensures init[l].id != init[j].id {
        assert init[l] == authors[l];
      }
      IndexByIDLast(init, j);
    }
  }

  /** Go's read of a map: a missing key gives the zero value. */
  function Lookup(authorMap: map<string, Author>, id: string): (a: Author)
    ensures id in authorMap ==> a == authorMap[id]
    ensures id !in authorMap ==> a == ZeroAuthor
  {
    if id in authorMap then authorMap[id] else ZeroAuthor
  }

  /** One looked-up author per ID, in the order of the IDs. */
  function Resolve(ids: seq<string>, authorMap: map<string, Author>): seq<Author>
  {
    if ids == [] then []
    else Resolve(ids[..|ids| - 1], authorMap) + [Lookup(authorMap, ids[|ids| - 1])]
  }

  lemma {:induction false} ResolveAt(ids: seq<string>, authorMap: map<string, Author>)
    ensures |Resolve(ids, authorMap)| == |ids|
    ensures forall k :: 0 <= k < |ids| ==> Resolve(ids, authorMap)[k] == Lookup(authorMap, ids[k])
  {
    if ids != [] {
      var init := ids[..|ids| - 1];
      ResolveAt(init, authorMap);
      forall k | 0 <= k < |ids| - 1 ensures Resolve(ids, authorMap)[k] == Lookup(authorMap, ids[k]) {
        assert init[k] == ids[k];
      }
    }
  }

  /** What `addAuthors` makes of one manga: one looked-up author appended per
      author ID, then the primary author set to the first of the list when
      the list is not empty. */
  function Attach(m: Manga, authorMap: map<string, Author>): (r: Manga)
    // nothing but the two author fields changes
    ensures r.(authors := m.authors, author := m.author) == m
    // the old authors are kept, one entry per author ID follows
    ensures |r.authors| == |m.authors| + |m.authorIDs| && r.authors[..|m.authors|] == m.authors
    ensures forall k :: 0 <= k < |m.authorIDs| ==>
              r.authors[|m.authors| + k] == Lookup(authorMap, m.authorIDs[k])
    ensures |r.authors| > 0 ==> r.author == r.authors[0]
    ensures |r.authors| == 0 ==> r.author == m.author
    // a manga without authors and author IDs comes back as it was
    ensures m.authors == [] && m.authorIDs == [] ==> r == m
  {
    ResolveAt(m.authorIDs, authorMap);
    var authors := m.authors + Resolve(m.authorIDs, authorMap);
    m.(authors := authors, author := if |authors| == 0 then m.author else authors[0])
  }

  /** One round of the in-place loop of `addAuthors`: manga `i` gets one
      author appended per author ID, then its primary author. */
  method AttachAt(mangas: array<Manga>, i: nat, authorMap: map<string, Author>)
    requires i < mangas.Length
    modifies mangas
    ensures mangas[i] == Attach(old(mangas[i]), authorMap)
    ensures forall j :: 0 <= j < mangas.Length && j != i ==> mangas[j] == old(mangas[j])
  {
    var ids := mangas[i].authorIDs;
    for k := 0 to |ids|
      invariant mangas[i] == old(mangas[i]).(authors := old(mangas[i]).authors + Resolve(ids[..k], authorMap))
      invariant forall j :: 0 <= j < mangas.Length && j != i ==> mangas[j] == old(mangas[j])
    {
      assert ids[..k + 1][..k] == ids[..k];
      mangas[i] := mangas[i].(authors := mangas[i].authors + [Lookup(authorMap, ids[k])]);
    }
    assert ids[..|ids|] == ids;
    if |mangas[i].authors| == 0 {
      return;
    }
    mangas[i] := mangas[i].(author := mangas[i].authors[0]);
  }

  /** The in-place loop of `addAuthors` over the mangas. */
  method AttachAuthors(mangas: array<Manga>, authorMap: map<string, Author>)
    modifies mangas
    ensures forall i :: 0 <= i < mangas.Length ==> mangas[i] == Attach(old(mangas[i]), authorMap)
  {
    for i := 0 to mangas.Length
      invariant forall j :: 0 <= j < i ==> mangas[j] == Attach(old(mangas[j]), authorMap)
      invariant forall j :: i <= j < mangas.Length ==> mangas[j] == old(mangas[j])
    {
      AttachAt(mangas, i, authorMap);
    }
  }

  /** `addAuthors`: one lookup request holding every manga's author IDs; if
      it fails nothing changes, otherwise every manga gets its authors
      attached in place, the number and order of mangas unchanged. */
  method AddAuthors(mangas: array<Manga>, meta: Exchange<seq<Author>>) returns (err: Option<Error>, requested: seq<string>)
    modifies mangas
    ensures requested == AllAuthorIDs(old(mangas[..]))
    ensures Receive(meta).Err? ==> err == Some(Receive(meta).error) && mangas[..] == old(mangas[..])
    ensures Receive(meta).Ok? ==> err == None
    ensures Receive(meta).Ok? ==>
              forall i :: 0 <= i < mangas.Length ==> mangas[i] == Attach(old(mangas[i]), IndexByID(Receive(meta).value))
  {
    requested := CollectAuthorIDs(mangas);
    var authors := Receive(meta);
    if authors.Err? {
      return Some(authors.error), requested;
    }
    var authorMap := BuildAuthorMap(authors.value);
    AttachAuthors(mangas, authorMap);
    err := None;
  }

  /** When the lookup returns an author for every requested ID, every
      appended entry is the author with the requested ID (no zero value),
      and a manga that had no authors gets the author of its first ID as
      primary author. */
  lemma AttachResolvesAll(m: Manga, authors: seq<Author>)
    requires forall k :: 0 <= k < |m.authorIDs| ==> exists j :: 0 <= j < |authors| && authors[j].id == m.authorIDs[k]
    ensures forall k :: 0 <= k < |m.authorIDs| ==>
              Attach(m, IndexByID(authors)).authors[|m.authors| + k].id == m.authorIDs[k]
    ensures m.authors == [] && m.authorIDs != [] ==> Attach(m, IndexByID(authors)).author.id == m.authorIDs[0]
  {
    forall k | 0 <= k < |m.authorIDs|
      ensures m.authorIDs[k] in IndexByID(authors) && IndexByID(authors)[m.authorIDs[k]].id == m.authorIDs[k]
    {
      IndexByIDKeys(authors, m.authorIDs[k]);
    }
  }
}
