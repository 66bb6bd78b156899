/** The records the MangaRock client decodes from the API and hands back to
    its callers, and the outcome types its operations return. */
module Entities {

  datatype Option<T> = None | Some(value: T)

  /** The kinds of failure an operation can report. Message texts and the
      context that the client wraps around an error are not modelled. */
  datatype Error =
    | TransportFailure   // the request could not be built or sent, or the envelope did not decode
    | ApiCode(code: int) // the envelope decoded but carried a non-zero status code
    | Decode             // the envelope's data did not have the expected shape
    | NotFound           // a chapter or an author is missing from otherwise good results
    | IndexOutOfRange    // the runtime fault of reading the first element of an empty list

  datatype Result<T> = Ok(value: T) | Err(error: Error)

  /** The last-updated instant of a manga; it is carried along and never
      inspected, so only its identity matters. */
  datatype Timestamp = Timestamp(instant: int)

  datatype Author = Author(id: string, name: string, thumbnail: string, role: string)

  /** What reading a missing key from a map of authors yields: every field empty. */
  const ZeroAuthor: Author := Author("", "", "", "")

  datatype Chapter = Chapter(id: string, name: string, order: int, pages: seq<string>)

  datatype Category = Category(id: string, name: string)

  /** A manga as returned by the metadata lookup. `author` is the primary
      author: it is never transmitted, the client derives it. */
  datatype Manga = Manga(
    id: string,
    name: string,
    author: Author,
    authors: seq<Author>,
    authorIDs: seq<string>,
    genres: seq<string>,
    rank: int,
    updatedChapters: int,
    newChapters: seq<Chapter>,
    completed: bool,
    thumbnail: string,
    updated: Timestamp)

  /** The detail view of one manga: the common fields plus its full chapter list. */
  datatype MangaSingle = MangaSingle(
    manga: Manga,
    description: string,
    chapters: seq<Chapter>,
    categories: seq<Category>,
    cover: string,
    artworks: seq<string>,
    aliases: seq<string>)

  /** One entry of the author-related series feed: only its identifier is decoded. */
  datatype SeriesRef = SeriesRef(id: string)
}
