/** A session of the workspace: user actions and backend responses arrive as
    one sequence of events, in whatever order they happen, and each is
    applied by its handler. This module states what holds across any such
    sequence. */
module Session {
  import opened Types
  import opened UploadPolicy
  import opened Workspace

  /** One thing that happens to the workspace. The first group are user
      actions (a dispatched search keyword comes from the keystroke filter);
      the second group are responses to earlier backend calls. */
  datatype Event =
    | NextPageClicked
    | PrevPageClicked
    | FilePicked(picked: Option<File>)
    | UploadClicked
    | DeleteClicked(id: int, confirmed: bool)
    | ViewClicked(id: int)
    | KeywordDispatched(keyword: string)
    | ListReturned(docs: seq<Document>)
    | ListRejected(cause: string)
    | UploadReturned
    | UploadRejected(cause: string)
    | DeleteReturned
    | DeleteRejected(cause: string)
    | GetReturned(doc: Document)
    | GetRejected(cause: string)
    | SearchReturned(docs: seq<Document>, elapsedMs: nat)
    | SearchRejected(cause: string)

  /** A response to an earlier backend call. */
  predicate IsResponse(e: Event)
  {
    !(e.NextPageClicked? || e.PrevPageClicked? || e.FilePicked? || e.UploadClicked?
      || e.DeleteClicked? || e.ViewClicked? || e.KeywordDispatched?)
  }

  /** A response reporting that a backend call failed. */
  predicate IsRejection(e: Event)
  {
    e.ListRejected? || e.UploadRejected? || e.DeleteRejected? || e.GetRejected? || e.SearchRejected?
  }

  /** Applies one event with its handler. A rejection goes to the error
      handler: it logs the cause, stores a message, drops `loading` and asks
      for nothing. A returned list, document or search result is stored with
      no further effect. A returned upload or delete fetches the current page
      again with `uploading` dropped. */
  function Apply(s: State, e: Event): (r: Step)
    ensures IsRejection(e) ==>
              && !r.state.loading && r.state.errorMessage != ""
              && |r.effects| > 0 && r.effects[0] == LogCause(e.cause)
              && NoRequest(r.effects)
    ensures e.ListReturned? ==> r.state.documents == e.docs && !r.state.loading && r.effects == []
    ensures e.GetReturned? ==> r.state.selectedDoc == Some(e.doc) && r.effects == []
    ensures e.SearchReturned? ==>
              && r.state.documents == e.docs && r.state.resultCount == |e.docs|
              && !r.state.loading && r.effects == []
    ensures e.UploadReturned? || e.DeleteReturned? ==>
              && !r.state.uploading && r.state.loading
              && Requests(r.effects) == [List(s.currentPage, s.pageLimit)]
  {
    match e
    case NextPageClicked => NextPage(s)
    case PrevPageClicked => PrevPage(s)
    case FilePicked(picked) => Step(SelectFile(s, picked), [])
    case UploadClicked => UploadSelectedFile(s)
    case DeleteClicked(id, confirmed) => DeleteDoc(s, id, confirmed)
    case ViewClicked(id) => ViewDoc(s, id)
    case KeywordDispatched(keyword) => PerformSearch(s, keyword)
    case _ => ApplyResponse(s, e)
  }

  /** The subscribe callbacks: each response goes to its handler. */
  function ApplyResponse(s: State, e: Event): (r: Step)
    requires IsResponse(e)
    ensures IsRejection(e) ==>
              && !r.state.loading && r.state.errorMessage != ""
              && |r.effects| > 0 && r.effects[0] == LogCause(e.cause)
              && NoRequest(r.effects)
    ensures e.ListReturned? ==> r.state.documents == e.docs && !r.state.loading && r.effects == []
    ensures e.GetReturned? ==> r.state.selectedDoc == Some(e.doc) && r.effects == []
    ensures e.SearchReturned? ==>
              && r.state.documents == e.docs && r.state.resultCount == |e.docs|
              && !r.state.loading && r.effects == []
    ensures e.UploadReturned? || e.DeleteReturned? ==>
              && !r.state.uploading && r.state.loading
              && Requests(r.effects) == [List(s.currentPage, s.pageLimit)]
  {
    match e
    case ListReturned(docs) => Step(ListSucceeded(s, docs), [])
    case ListRejected(cause) => ListFailed(s, cause)
    case UploadReturned => UploadSucceeded(s)
    case UploadRejected(cause) => UploadFailed(s, cause)
    case DeleteReturned => DeleteSucceeded(s)
    case DeleteRejected(cause) => DeleteFailed(s, cause)
    case GetReturned(doc) => Step(ViewSucceeded(s, doc), [])
    case GetRejected(cause) => ViewFailed(s, cause)
    case SearchReturned(docs, elapsedMs) => Step(SearchSucceeded(s, docs, elapsedMs), [])
    case SearchRejected(cause) => SearchFailed(s, cause)
  }

  /** Applies the events in order, collecting every effect they request. */
  function Run(s: State, es: seq<Event>): Step
    decreases |es|
  {
    if es == [] then Step(s, [])
    else
      var first := Apply(s, es[0]);
      var rest := Run(first.state, es[1..]);
      Step(rest.state, first.effects + rest.effects)
  }

  /** The page is at least 1 and the page size is the fixed one. */
  predicate Valid(s: State)
  {
    s.currentPage >= 1 && s.pageLimit == PageLimit
  }

  /** Every list request asks for a page of at least 1 of the fixed size. */
  predicate ListRequestsValid(effects: seq<Effect>)
  {
    forall k :: 0 <= k < |effects| && effects[k].Request? && effects[k].call.List? ==>
      effects[k].call.page >= 1 && effects[k].call.limit == PageLimit
  }

  /** One event keeps the state valid, asks the backend for at most one
      thing, and a list request it issues is for the page the workspace is on
      afterwards. */
  lemma ApplyKeepsValid(s: State, e: Event)
    requires Valid(s)
    ensures Valid(Apply(s, e).state)
    ensures |Requests(Apply(s, e).effects)| <= 1
    ensures forall c :: c in Requests(Apply(s, e).effects) && c.List? ==>
              c == List(Apply(s, e).state.currentPage, Apply(s, e).state.pageLimit)
    ensures ListRequestsValid(Apply(s, e).effects)
  {
  }

  /** A backend call goes out only with the matching busy flag raised: a
      list or search with `loading`, an upload with `uploading`, both with a
      cleared error message. A get or delete raises nothing. */
  lemma BusyWhileRequesting(s: State, e: Event)
    ensures var r := Apply(s, e);
            forall c :: c in Requests(r.effects) ==>
              && ((c.List? || c.Search?) ==> r.state.loading && r.state.errorMessage == "")
              && (c.Upload? ==> r.state.uploading && r.state.errorMessage == "")
  {
  }

  /** Only a click on upload, with a file that passes validation, raises
      `uploading`. */
  lemma UploadingRaisedOnlyByUpload(s: State, e: Event)
    requires !s.uploading && Apply(s, e).state.uploading
    ensures e == UploadClicked && ValidateUpload(s.selectedFile).Ok?
  {
  }

  /** Validity holds after any sequence of events, and so does the shape of
      every list request issued on the way. */
  lemma {:induction false} RunKeepsValid(s: State, es: seq<Event>)
    requires Valid(s)
    ensures Valid(Run(s, es).state)
    ensures ListRequestsValid(Run(s, es).effects)
    decreases |es|
  {
    if es != [] {
      var first := Apply(s, es[0]);
      ApplyKeepsValid(s, es[0]);
      RunKeepsValid(first.state, es[1..]);
      var rest := Run(first.state, es[1..]);
      var all := first.effects + rest.effects;
      forall k | 0 <= k < |all| && all[k].Request? && all[k].call.List?
        ensures all[k].call.page >= 1 && all[k].call.limit == PageLimit
      {
        if k >= |first.effects| {
          assert all[k] == rest.effects[k - |first.effects|];
        }
      }
    }
  }

  /** From start-up on, the page never drops below 1, whatever happens. */
  lemma PageNeverBelowOne(es: seq<Event>)
    ensures Run(Start().state, es).state.currentPage >= 1
    ensures ListRequestsValid(Start().effects + Run(Start().state, es).effects)
  {
    RunKeepsValid(Start().state, es);
    var all := Start().effects + Run(Start().state, es).effects;
    forall k | 0 <= k < |all| && all[k].Request? && all[k].call.List?
      ensures all[k].call.page >= 1 && all[k].call.limit == PageLimit
    {
      if k >= 1 {
        assert all[k] == Run(Start().state, es).effects[k - 1];
      }
    }
  }

  /** Without an upload click, an idle upload flag stays down. */
  lemma {:induction false} NoUploadClickNoUploading(s: State, es: seq<Event>)
    requires !s.uploading
    requires forall k :: 0 <= k < |es| ==> es[k] != UploadClicked
    ensures !Run(s, es).state.uploading
    decreases |es|
  {
    if es != [] {
      assert es[0] != UploadClicked;
      if Apply(s, es[0]).state.uploading {
        UploadingRaisedOnlyByUpload(s, es[0]);
      }
      NoUploadClickNoUploading(Apply(s, es[0]).state, es[1..]);
    }
  }

  /** `n` copies of the event `e`. */
  function Repeat(e: Event, n: nat): (es: seq<Event>)
    ensures |es| == n
    ensures forall k :: 0 <= k < n ==> es[k] == e
  {
    seq(n, k => e)
  }

  /** List requests for the `m` pages after page `p`, going up. */
  function PagesUp(p: int, limit: int, m: nat): (calls: seq<Call>)
    ensures |calls| == m
  {
    seq(m, k => List(p + k + 1, limit))
  }

  /** List requests for the `m` pages before page `p`, going down. */
  function PagesDown(p: int, limit: int, m: nat): (calls: seq<Call>)
    ensures |calls| == m
  {
    seq(m, k => List(p - k - 1, limit))
  }

  lemma PagesUpStep(p: int, limit: int, m: nat)
    requires m > 0
    ensures PagesUp(p, limit, m) == [List(p + 1, limit)] + PagesUp(p + 1, limit, m - 1)
  {
    var a := PagesUp(p, limit, m);
    var b := [List(p + 1, limit)] + PagesUp(p + 1, limit, m - 1);
    forall k | 0 <= k < m
      ensures a[k] == b[k]
    {
      if k > 0 {
        assert b[k] == PagesUp(p + 1, limit, m - 1)[k - 1];
      }
    }
  }

  lemma PagesDownStep(p: int, limit: int, m: nat)
    requires m > 0
    ensures PagesDown(p, limit, m) == [List(p - 1, limit)] + PagesDown(p - 1, limit, m - 1)
  {
    var a := PagesDown(p, limit, m);
    var b := [List(p - 1, limit)] + PagesDown(p - 1, limit, m - 1);
    forall k | 0 <= k < m
      ensures a[k] == b[k]
    {
      if k > 0 {
        assert b[k] == PagesDown(p - 1, limit, m - 1)[k - 1];
      }
    }
  }

  /** Running `n` copies of `e` is applying `e` once and then running the
      other `n - 1`; the calls are those of the first step followed by the
      rest. */
  lemma RunRepeatStep(s: State, e: Event, n: nat)
    requires n > 0
    ensures Run(s, Repeat(e, n)).state == Run(Apply(s, e).state, Repeat(e, n - 1)).state
    ensures Requests(Run(s, Repeat(e, n)).effects)
         == Requests(Apply(s, e).effects) + Requests(Run(Apply(s, e).state, Repeat(e, n - 1)).effects)
  {
    assert Repeat(e, n)[1..] == Repeat(e, n - 1);
    RequestsAppend(Apply(s, e).effects, Run(Apply(s, e).state, Repeat(e, n - 1)).effects);
  }

  /** Pressing "next" `n` times moves `n` pages forward and asks for each
      page on the way, in order. */
  lemma {:induction false} NextPages(s: State, n: nat)
    ensures Run(s, Repeat(NextPageClicked, n)).state.currentPage == s.currentPage + n
    ensures Run(s, Repeat(NextPageClicked, n)).state.pageLimit == s.pageLimit
    ensures Requests(Run(s, Repeat(NextPageClicked, n)).effects)
         == PagesUp(s.currentPage, s.pageLimit, n)
    decreases n
  {
    if n == 0 {
      assert Repeat(NextPageClicked, 0) == [];
    } else {
      RunRepeatStep(s, NextPageClicked, n);
      NextPages(NextPage(s).state, n - 1);
      PagesUpStep(s.currentPage, s.pageLimit, n);
    }
  }

  /** On the first page, pressing "previous" any number of times changes
      nothing and asks for nothing. */
  lemma {:induction false} PrevPagesAtFirst(s: State, n: nat)
    requires s.currentPage <= 1
    ensures Run(s, Repeat(PrevPageClicked, n)).state == s
    ensures Requests(Run(s, Repeat(PrevPageClicked, n)).effects) == []
    decreases n
  {
    if n == 0 {
      assert Repeat(PrevPageClicked, 0) == [];
    } else {
      RunRepeatStep(s, PrevPageClicked, n);
      PrevPagesAtFirst(s, n - 1);
    }
  }

  /** Pressing "previous" `n` times stops at page 1, asking for each page
      on the way down and nothing once page 1 is reached. */
  lemma {:induction false} PrevPages(s: State, n: nat)
    requires s.currentPage >= 1
    ensures Run(s, Repeat(PrevPageClicked, n)).state.currentPage
         == if n < s.currentPage then s.currentPage - n else 1
    ensures Requests(Run(s, Repeat(PrevPageClicked, n)).effects)
         == PagesDown(s.currentPage, s.pageLimit, if n < s.currentPage then n else s.currentPage - 1)
    decreases n
  {
    if s.currentPage == 1 {
      PrevPagesAtFirst(s, n);
    } else if n == 0 {
      assert Repeat(PrevPageClicked, 0) == [];
    } else {
      var p, limit := s.currentPage, s.pageLimit;
      var m := if n < p then n else p - 1;
      var t := PrevPage(s).state;
      var before := Run(s, Repeat(PrevPageClicked, n));
      var after := Run(t, Repeat(PrevPageClicked, n - 1));
      PrevPagesStep(s, n);
      PrevPages(t, n - 1);
      assert before.state.currentPage == after.state.currentPage == if n < p then p - n else 1;
      assert Requests(after.effects) == PagesDown(p - 1, limit, m - 1);
      PagesDownStep(p, limit, m);
      assert Requests(before.effects) == PagesDown(p, limit, m);
    }
  }

  /** One step of `PrevPages` above page 1: the first press moves one page
      down and asks for it, then the other presses run from there. */
  lemma PrevPagesStep(s: State, n: nat)
    requires s.currentPage > 1 && n > 0
    ensures var t := PrevPage(s).state;
            && t.currentPage == s.currentPage - 1 && t.pageLimit == s.pageLimit
            && Run(s, Repeat(PrevPageClicked, n)).state == Run(t, Repeat(PrevPageClicked, n - 1)).state
            && Requests(Run(s, Repeat(PrevPageClicked, n)).effects)
               == [List(s.currentPage - 1, s.pageLimit)] + Requests(Run(t, Repeat(PrevPageClicked, n - 1)).effects)
  {
    RunRepeatStep(s, PrevPageClicked, n);
  }

  /** The calls of two effect lists are the calls of each, in order. */
  lemma {:induction false} RequestsAppend(a: seq<Effect>, b: seq<Effect>)
    ensures Requests(a + b) == Requests(a) + Requests(b)
    decreases |a|
  {
    if a != [] {
      assert (a + b)[0] == a[0];
      assert (a + b)[1..] == a[1..] + b;
      RequestsAppend(a[1..], b);
      var head := if a[0].Request? then [a[0].call] else [];
      assert Requests(a) == head + Requests(a[1..]);
      assert Requests(a + b) == head + Requests(a[1..] + b);
    } else {
      assert a + b == b;
    }
  }

  /** The start-up scenario: a first page of three documents arrives, an
      empty search clears the selection, and an unconfirmed delete does
      nothing at all. */
  lemma StartUpScenario(d1: Document, d2: Document, d3: Document, id: int)
    ensures var loaded := Apply(Start().state, ListReturned([d1, d2, d3])).state;
            && Start().effects == [Request(List(1, 5))]
            && |loaded.documents| == 3 && !loaded.loading
            && Apply(loaded, DeleteClicked(id, false)) == Step(loaded, [])
            && var searched := Apply(loaded, SearchReturned([], 0)).state;
               searched.resultCount == 0 && searched.selectedDoc == None
  {
  }
}
