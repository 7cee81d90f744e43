/** Entities of the document workspace: the documents the backend returns,
    the file a user picks, the calls the controller asks the backend to make,
    and the workspace state record every handler transforms. */
module Types {

  datatype Option<+T> = None | Some(value: T)

  datatype Result<+T, +E> = Ok(value: T) | Err(error: E)

  /** A document as the backend returns it. `highlighted` is the excerpt a
      search result carries; list and get results leave it out. */
  datatype Document = Document(
    id: int,
    name: string,
    path: string,
    createdAt: string,
    body: Option<string>,
    highlighted: Option<string>)

  /** A file chosen by the user; only its name matters to the controller. */
  datatype File = File(name: string)

  /** The five backend operations of the document API. */
  datatype Call =
    | List(page: int, limit: int)
    | Upload(file: File)
    | Get(id: int)
    | Delete(id: int)
    | Search(keyword: string)

  /** Whether a notification is shown with the success or the failure mark. */
  datatype Tone = Positive | Negative

  /** What a handler asks the outside world to do. The cause of a failed call
      is opaque to the controller and is only written to the diagnostic log. */
  datatype Effect =
    | Request(call: Call)
    | Notify(tone: Tone, message: string, durationMs: nat)
    | LogCause(cause: string)

  /** The workspace state record. `searchTime` is the elapsed time of the last
      search round trip, in whole milliseconds. */
  datatype State = State(
    documents: seq<Document>,
    selectedDoc: Option<Document>,
    selectedFile: Option<File>,
    currentPage: int,
    pageLimit: int,
    loading: bool,
    uploading: bool,
    errorMessage: string,
    resultCount: nat,
    searchTime: nat)

  /** The outcome of one transition: the new state and the effects it
      requests, in the order the source issues them. */
  datatype Step = Step(state: State, effects: seq<Effect>)

  /** True when no effect in `effects` is a backend call. */
  predicate NoRequest(effects: seq<Effect>)
  {
    forall k :: 0 <= k < |effects| ==> !effects[k].Request?
  }

  /** The backend calls among `effects`, in order. */
  function Requests(effects: seq<Effect>): (calls: seq<Call>)
    ensures |calls| <= |effects|
    ensures NoRequest(effects) <==> calls == []
  {
    if effects == [] then []
    else
      var rest := Requests(effects[1..]);
      assert effects == [effects[0]] + effects[1..];
      if effects[0].Request? then [effects[0].call] + rest else rest
  }
}
