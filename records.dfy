/**
 * The records the generator works on: papers as parsed from the submission
 * export, the entries of the table-of-contents file, sessions and tracks.
 * Every field the core reads is kept; the rest of the records is not.
 */
module Records {

  datatype Author = Author(name: string)

  /** `paper.authors.author`: a single author object or a list of them. */
  datatype AuthorField = OneAuthor(author: Author) | AuthorList(list: seq<Author>)

  /** `paper.files.file`: absent, one file entry, or a list of entries. */
  datatype FileField = NoFile | OneFile(file: string) | FileList(files: seq<string>)

  /** `paper.session` as parsed: its short title and its display title. */
  datatype SessionRef = SessionRef(shortTitle: string, title: string)

  /** One paper of the submission export; `positionInSession` is already an integer. */
  datatype Paper = Paper(
    id: string,
    title: string,
    doi: string,
    isAccepted: string,
    authors: AuthorField,
    session: SessionRef,
    positionInSession: int,
    files: FileField)

  /** A session bucket: the papers that share a session short title. */
  datatype Session = Session(shortTitle: string, title: string, papers: seq<Paper>)

  /** One entry of the table-of-contents file: a track and the session short titles it lists. */
  datatype TocEntry = TocEntry(
    conference: string,
    id: string,
    title: string,
    longTitle: string,
    position: int,
    sessions: seq<string>)

  /** The track descriptor returned for a session. */
  datatype TrackInfo = TrackInfo(
    conference: string,
    longTitle: string,
    id: string,
    position: int,
    title: string)

  /** A track of the generated table of contents with its sessions. */
  datatype Track = Track(
    conference: string,
    id: string,
    position: int,
    title: string,
    longTitle: string,
    sessions: seq<Session>)
}
