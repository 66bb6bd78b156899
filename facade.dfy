/** The client's public operations. Each is a fixed sequence of requests;
    every response is a parameter (an `Exchange`), and `calls` records the
    requests the operation issued, in order, so that what it does NOT ask
    for after a failure can be stated. */
module Facade {
  import opened Entities
  import opened Transport
  import opened Joiner

  /** A request, with the payload it sends. */
  datatype Call =
    | LatestFeed                    // GET of the latest-manga feed, without parameters
    | SeriesSearch(keywords: string) // POST of a series search
    | Meta(ids: seq<string>)        // POST of an ID list to the shared metadata endpoint
    | Info(mangaID: string)         // POST for the detail view of one manga
    | Pages(chapterID: string)      // POST for the page URLs of one chapter
    | RelatedSeries(authorID: string) // GET of the series related to one author

  datatype AuthorPage = AuthorPage(author: Author, mangas: seq<Manga>)

  ghost function AttachAll(mangas: seq<Manga>, authorMap: map<string, Author>): seq<Manga>
  {
    seq(|mangas|, i requires 0 <= i < |mangas| => Attach(mangas[i], authorMap))
  }

  /** `mangasByIDs` followed by `addAuthors`, as one value. */
  ghost function Joined(ids: seq<string>, metaMangas: Exchange<map<string, Manga>>,
                        metaAuthors: Exchange<seq<Author>>): Result<seq<Manga>>
  {
    match Receive(metaMangas)
    case Err(e) => Err(e)
    case Ok(mangaMap) =>
      match Receive(metaAuthors)
      case Err(e) => Err(e)
      case Ok(authors) => Ok(AttachAll(Select(ids, mangaMap), IndexByID(authors)))
  }

  /** What a joined result holds: at most one manga per requested ID, each
      the looked-up manga of a known ID with only its author fields changed,
      the position in the output given by that ID's rank among the known ones. */
  lemma JoinedShape(ids: seq<string>, metaMangas: Exchange<map<string, Manga>>,
                    metaAuthors: Exchange<seq<Author>>, p: nat)
    requires Joined(ids, metaMangas, metaAuthors).Ok?
    ensures |Joined(ids, metaMangas, metaAuthors).value| <= |ids|
    ensures p < |Joined(ids, metaMangas, metaAuthors).value| ==>
              var mangaMap := Receive(metaMangas).value;
              var out := Joined(ids, metaMangas, metaAuthors).value[p];
              exists i :: 0 <= i < |ids| && ids[i] in mangaMap && Rank(ids, mangaMap, i) == p &&
                out.(authors := mangaMap[ids[i]].authors, author := mangaMap[ids[i]].author) == mangaMap[ids[i]]
  {
    var mangaMap := Receive(metaMangas).value;
    SelectLength(ids, mangaMap);
    if p < |Joined(ids, metaMangas, metaAuthors).value| {
      SelectOrigin(ids, mangaMap, p);
    }
  }

  /** A search hit whose one author ID the author lookup resolves comes back
      as the looked-up manga with that author as its list and primary author. */
  lemma JoinedSingle(id: string, m: Manga, a: Author)
    requires m.authors == [] && m.authorIDs == [a.id]
    ensures Joined([id], Delivered(Envelope(0, Some(map[id := m]))), Delivered(Envelope(0, Some([a]))))
            == Ok([m.(authors := [a], author := a)])
  {
    var ix := map[a.id := a];
    SelectSingle(id, m);
    IndexSingle(a);
    AttachSingle(m, a);
    assert AttachAll([m], ix) == [m.(authors := [a], author := a)];
  }

  lemma SelectSingle(id: string, m: Manga)
    ensures Select([id], map[id := m]) == [m]
  {
    assert [id][..0] == [];
  }

  lemma IndexSingle(a: Author)
    ensures IndexByID([a]) == map[a.id := a]
  {
    assert [a][..0] == [];
  }

  lemma AttachSingle(m: Manga, a: Author)
    requires m.authors == [] && m.authorIDs == [a.id]
    ensures Attach(m, map[a.id := a]) == m.(authors := [a], author := a)
  {
    var ix := map[a.id := a];
    assert [a.id][..0] == [];
    assert Resolve([a.id], ix) == [a];
  }

  /** The part of `Latest` and `Search` after the IDs are known. */
  method JoinWithAuthors(ids: seq<string>, metaMangas: Exchange<map<string, Manga>>,
                         metaAuthors: Exchange<seq<Author>>)
    returns (r: Result<seq<Manga>>, calls: seq<Call>)
    ensures r == Joined(ids, metaMangas, metaAuthors)
    ensures Receive(metaMangas).Err? ==> calls == [Meta(ids)]
    ensures Receive(metaMangas).Ok? ==>
              calls == [Meta(ids), Meta(AllAuthorIDs(Select(ids, Receive(metaMangas).value)))]
  {
    calls := [Meta(ids)];
    var found := MangasByIDs(ids, metaMangas);
    if found.Err? {
      return Err(found.error), calls;
    }
    var ms := found.value;
    var mangas := new Manga[|ms|](i requires 0 <= i < |ms| => ms[i]);
    assert mangas[..] == ms;
    var err, requested := AddAuthors(mangas, metaAuthors);
    calls := calls + [Meta(requested)];
    if err.Some? {
      return Err(err.value), calls;
    }
    assert mangas[..] == AttachAll(ms, IndexByID(Receive(metaAuthors).value));
    r := Ok(mangas[..]);
  }

  ghost function IDsOf(mangas: seq<Manga>): seq<string>
  {
    seq(|mangas|, i requires 0 <= i < |mangas| => mangas[i].id)
  }

  /** The ID extraction of `Latest`: a slice of the feed's length filled slot by slot. */
  method LatestIDs(mangas: seq<Manga>) returns (ids: seq<string>)
    ensures |ids| == |mangas|
    ensures forall i :: 0 <= i < |mangas| ==> ids[i] == mangas[i].id
  {
    var slots := new string[|mangas|];
    for i := 0 to |mangas|
      invariant forall j :: 0 <= j < i ==> slots[j] == mangas[j].id
    {
      slots[i] := mangas[i].id;
    }
    ids := slots[..];
  }

  /** `Latest`: the feed's IDs are looked up again and the authors attached.
      `page` is accepted and never sent: the result does not depend on it. */
  method Latest(page: int, feed: Exchange<seq<Manga>>, metaMangas: Exchange<map<string, Manga>>,
                metaAuthors: Exchange<seq<Author>>)
    returns (r: Result<seq<Manga>>, calls: seq<Call>)
    ensures Receive(feed).Err? ==> r == Err(Receive(feed).error) && calls == [LatestFeed]
    ensures Receive(feed).Ok? ==>
              var ids := IDsOf(Receive(feed).value);
              r == Joined(ids, metaMangas, metaAuthors) && 2 <= |calls| && calls[..2] == [LatestFeed, Meta(ids)]
    ensures Receive(feed).Ok? && Receive(metaMangas).Err? ==>
              calls == [LatestFeed, Meta(IDsOf(Receive(feed).value))]
    ensures Receive(feed).Ok? && Receive(metaMangas).Ok? ==>
              var ids := IDsOf(Receive(feed).value);
              calls == [LatestFeed, Meta(ids), Meta(AllAuthorIDs(Select(ids, Receive(metaMangas).value)))]
  {
    calls := [LatestFeed];
    var decoded := Receive(feed);
    if decoded.Err? {
      return Err(decoded.error), calls;
    }
    var ids := LatestIDs(decoded.value);
    assert ids == IDsOf(decoded.value);
    var rest;
    r, rest := JoinWithAuthors(ids, metaMangas, metaAuthors);
    calls := calls + rest;
  }

  /** `Search`: the search returns IDs, which are looked up and get their authors. */
  method Search(query: string, hits: Exchange<seq<string>>, metaMangas: Exchange<map<string, Manga>>,
                metaAuthors: Exchange<seq<Author>>)
    returns (r: Result<seq<Manga>>, calls: seq<Call>)
    ensures Receive(hits).Err? ==> r == Err(Receive(hits).error) && calls == [SeriesSearch(query)]
    ensures Receive(hits).Ok? ==>
              var ids := Receive(hits).value;
              r == Joined(ids, metaMangas, metaAuthors) && 2 <= |calls| && calls[..2] == [SeriesSearch(query), Meta(ids)]
    ensures Receive(hits).Ok? && Receive(metaMangas).Err? ==>
              calls == [SeriesSearch(query), Meta(Receive(hits).value)]
    ensures Receive(hits).Ok? && Receive(metaMangas).Ok? ==>
              var ids := Receive(hits).value;
              calls == [SeriesSearch(query), Meta(ids), Meta(AllAuthorIDs(Select(ids, Receive(metaMangas).value)))]
  {
    calls := [SeriesSearch(query)];
    var ids := Receive(hits);
    if ids.Err? {
      return Err(ids.error), calls;
    }
    var rest;
    r, rest := JoinWithAuthors(ids.value, metaMangas, metaAuthors);
    calls := calls + rest;
  }

  /** `Mangas`: one metadata lookup, reordered by the requested IDs. */
  method Mangas(ids: seq<string>, metaMangas: Exchange<map<string, Manga>>)
    returns (r: Result<seq<Manga>>, calls: seq<Call>)
    ensures calls == [Meta(ids)]
    ensures Receive(metaMangas).Err? ==> r == Err(Receive(metaMangas).error)
    ensures Receive(metaMangas).Ok? ==> r == Ok(Select(ids, Receive(metaMangas).value))
  {
    calls := [Meta(ids)];
    r := MangasByIDs(ids, metaMangas);
  }

  /** The primary-author line of `Manga`: the first listed author becomes the
      primary author and nothing else changes. */
  function WithPrimaryAuthor(detail: MangaSingle): (r: MangaSingle)
    requires |detail.manga.authors| > 0
    ensures r.manga.author == detail.manga.authors[0]
    ensures r.(manga := r.manga.(author := detail.manga.author)) == detail
  {
    detail.(manga := detail.manga.(author := detail.manga.authors[0]))
  }

  /** The outcome of `Manga` for a given info response. A decoded manga with
      no authors makes the first-element read fail. */
  function Detail(info: Exchange<MangaSingle>): (r: Result<MangaSingle>)
    ensures Receive(info).Err? ==> r == Err(Receive(info).error)
    ensures Receive(info).Ok? ==>
              (r.Ok? <==> |Receive(info).value.manga.authors| > 0) &&
              (r.Err? ==> r.error == IndexOutOfRange)
    ensures r.Ok? ==> |r.value.manga.authors| > 0 && r.value.manga.author == r.value.manga.authors[0] &&
                      r.value.(manga := r.value.manga.(author := Receive(info).value.manga.author)) == Receive(info).value
  {
    match Receive(info)
    case Err(e) => Err(e)
    case Ok(detail) =>
      if |detail.manga.authors| == 0 then Err(IndexOutOfRange) else Ok(WithPrimaryAuthor(detail))
  }

  /** `Manga`: one info request. */
  method MangaInfo(id: string, info: Exchange<MangaSingle>) returns (r: Result<MangaSingle>, calls: seq<Call>)
    ensures calls == [Info(id)]
    ensures r == Detail(info)
  {
    calls := [Info(id)];
    r := Detail(info);
  }

  ghost predicate IsFirstMatch(chapters: seq<Chapter>, cid: string, j: int)
  {
    0 <= j < |chapters| && chapters[j].id == cid && forall k :: 0 <= k < j ==> chapters[k].id != cid
  }

  /** The chapter scan of `Chapter`: the first chapter with the wanted ID,
      with its pages replaced; none is a not-found error. */
  method FindChapter(chapters: seq<Chapter>, cid: string, pages: seq<string>) returns (r: Result<Chapter>)
    ensures r.Ok? <==> exists j :: 0 <= j < |chapters| && chapters[j].id == cid
    ensures r.Err? ==> r.error == NotFound
    ensures r.Ok? ==> exists j :: IsFirstMatch(chapters, cid, j) && r.value == chapters[j].(pages := pages)
  {
    for i := 0 to |chapters|
      invariant forall k :: 0 <= k < i ==> chapters[k].id != cid
    {
      if chapters[i].id != cid {
        continue;
      }
      assert IsFirstMatch(chapters, cid, i);
      return Ok(chapters[i].(pages := pages));
    }
    return Err(NotFound);
  }

  /** `Chapter`: the manga's detail view, then the pages of the chapter, then the scan. */
  method ChapterWithPages(id: string, cid: string, info: Exchange<MangaSingle>, pages: Exchange<seq<string>>)
    returns (r: Result<Chapter>, calls: seq<Call>)
    ensures Detail(info).Err? ==> r == Err(Detail(info).error) && calls == [Info(id)]
    ensures Detail(info).Ok? ==> calls == [Info(id), Pages(cid)]
    ensures Detail(info).Ok? && Receive(pages).Err? ==> r == Err(Receive(pages).error)
    ensures Detail(info).Ok? && Receive(pages).Ok? ==>
              var chapters := Receive(info).value.chapters;
              (r.Ok? <==> exists j :: 0 <= j < |chapters| && chapters[j].id == cid) &&
              (r.Err? ==> r.error == NotFound) &&
              (r.Ok? ==> exists j :: IsFirstMatch(chapters, cid, j) && r.value == chapters[j].(pages := Receive(pages).value))
  {
    var detail;
    detail, calls := MangaInfo(id, info);
    if detail.Err? {
      return Err(detail.error), calls;
    }
    calls := calls + [Pages(cid)];
    var urls := Receive(pages);
    if urls.Err? {
      return Err(urls.error), calls;
    }
    r := FindChapter(detail.value.chapters, cid, urls.value);
  }

  ghost function RefIDs(refs: seq<SeriesRef>): seq<string>
  {
    seq(|refs|, i requires 0 <= i < |refs| => refs[i].id)
  }

  /** The ID extraction of `Author`: appended one by one. */
  method SeriesIDs(refs: seq<SeriesRef>) returns (ids: seq<string>)
    ensures |ids| == |refs|
    ensures forall i :: 0 <= i < |refs| ==> ids[i] == refs[i].id
  {
    ids := [];
    for i := 0 to |refs|
      invariant |ids| == i
      invariant forall j :: 0 <= j < i ==> ids[j] == refs[j].id
    {
      ids := ids + [refs[i].id];
    }
  }

  /** The stamping loop of `Author`: every manga's primary author is
      overwritten, nothing else changes. */
  method StampAuthor(mangas: array<Manga>, author: Author)
    modifies mangas
    ensures forall i :: 0 <= i < mangas.Length ==> mangas[i] == old(mangas[i]).(author := author)
  {
    for i := 0 to mangas.Length
      invariant forall j :: 0 <= j < i ==> mangas[j] == old(mangas[j]).(author := author)
      invariant forall j :: i <= j < mangas.Length ==> mangas[j] == old(mangas[j])
    {
      mangas[i] := mangas[i].(author := author);
    }
  }

  /** `Author`: the author lookup; if it returns nothing the operation stops
      with a not-found error and asks for nothing else. Otherwise the related
      series are looked up and each gets the first returned author as its
      primary author. */
  method AuthorWithMangas(id: string, metaAuthors: Exchange<seq<Author>>, related: Exchange<seq<SeriesRef>>,
                          metaMangas: Exchange<map<string, Manga>>)
    returns (r: Result<AuthorPage>, calls: seq<Call>)
    ensures Receive(metaAuthors).Err? ==> r == Err(Receive(metaAuthors).error) && calls == [Meta([id])]
    ensures Receive(metaAuthors) == Ok([]) ==> r == Err(NotFound) && calls == [Meta([id])]
    ensures Receive(metaAuthors).Ok? && Receive(metaAuthors).value != [] ==>
              2 <= |calls| <= 3 && calls[..2] == [Meta([id]), RelatedSeries(id)] &&
              (Receive(related).Err? ==> r == Err(Receive(related).error) && |calls| == 2) &&
              (Receive(related).Ok? ==> calls[2..] == [Meta(RefIDs(Receive(related).value))])
    ensures r.Ok? ==> Receive(metaAuthors).Ok? && Receive(metaAuthors).value != [] &&
                      Receive(related).Ok? && Receive(metaMangas).Ok?
    ensures r.Ok? && Receive(metaAuthors).Ok? && Receive(metaAuthors).value != [] &&
            Receive(related).Ok? && Receive(metaMangas).Ok? ==>
              var first := Receive(metaAuthors).value[0];
              var found := Select(RefIDs(Receive(related).value), Receive(metaMangas).value);
              r.value.author == first && |r.value.mangas| == |found| &&
              forall i :: 0 <= i < |found| ==> r.value.mangas[i] == found[i].(author := first)
    ensures Receive(metaAuthors).Ok? && Receive(metaAuthors).value != [] && Receive(related).Ok? ==>
              (r.Ok? <==> Receive(metaMangas).Ok?) &&
              (r.Err? ==> r.error == Receive(metaMangas).error)
  {
    calls := [Meta([id])];
    var authors := Receive(metaAuthors);
    if authors.Err? {
      return Err(authors.error), calls;
    }
    if |authors.value| == 0 {
      return Err(NotFound), calls;
    }
    calls := calls + [RelatedSeries(id)];
    var refs := Receive(related);
    if refs.Err? {
      return Err(refs.error), calls;
    }
    var ids := SeriesIDs(refs.value);
    assert ids == RefIDs(refs.value);
    calls := calls + [Meta(ids)];
    var found := MangasByIDs(ids, metaMangas);
    if found.Err? {
      return Err(found.error), calls;
    }
    var ms := found.value;
    var mangas := new Manga[|ms|](i requires 0 <= i < |ms| => ms[i]);
    StampAuthor(mangas, authors.value[0]);
    r := Ok(AuthorPage(authors.value[0], mangas[..]));
  }
}
