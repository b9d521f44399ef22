/** components/document-list.tsx: the client list of documents. It covers
    the search-and-sort of the list (a case-insensitive name filter, then an
    in-place comparator sort of the filtered copy), the component's own
    state, and the rules deciding what a row and the viewer show. Documents
    are those `GET /api/documents` returns, so every field is present and a
    missing blob URL reads as `""`. */
module DocumentList {
  import opened Wrappers
  import opened Text
  import MongoStorage
  import Cloudinary
  import DocumentUtils

  type Document = MongoStorage.Document

  datatype SortKey = ByName | BySize | ByDate

  /** How the list is ordered: the key, plus the two things the browser
      supplies, the locale's name comparison (`localeCompare(...) <= 0`) and
      the parsing of `uploadedAt` into milliseconds. */
  datatype Ordering = Ordering(key: SortKey, nameLe: (string, string) -> bool, timeOf: string -> int)

  /** The locale comparison is a total preorder, as `localeCompare` is. */
  ghost predicate ValidOrdering(o: Ordering) {
    && (forall x, y :: o.nameLe(x, y) || o.nameLe(y, x))
    && (forall x, y, z :: o.nameLe(x, y) && o.nameLe(y, z) ==> o.nameLe(x, z))
  }

  /** `a` may come before `b`: the `sort` comparator of the list's `useMemo` is not positive.
      Names ascend; sizes and dates descend (newest and largest first). */
  predicate Before(o: Ordering, a: Document, b: Document) {
    match o.key
    case ByName => o.nameLe(a.name, b.name)
    case BySize => a.size >= b.size
    case ByDate => o.timeOf(a.uploadedAt) >= o.timeOf(b.uploadedAt)
  }

  lemma BeforeTotal(o: Ordering, a: Document, b: Document)
    requires ValidOrdering(o)
    ensures Before(o, a, b) || Before(o, b, a)
  {
  }

  lemma BeforeTransitive(o: Ordering, a: Document, b: Document, c: Document)
    requires ValidOrdering(o) && Before(o, a, b) && Before(o, b, c)
    ensures Before(o, a, c)
  {
  }

  /** The first `n` elements are in order. */
  predicate SortedPrefix(s: seq<Document>, o: Ordering, n: int) {
    forall p, q :: 0 <= p < q < n && q < |s| ==> Before(o, s[p], s[q])
  }

  predicate Sorted(s: seq<Document>, o: Ordering) {
    SortedPrefix(s, o, |s|)
  }

  /** The search filter of the list's `useMemo`: the lower-cased name contains the lower-cased query. */
  predicate MatchesQuery(d: Document, query: string) {
    Includes(ToLower(d.name), ToLower(query))
  }

  /** `documents.filter(...)`: the matching documents, in list order. */
  function FilterByQuery(docs: seq<Document>, query: string): (filtered: seq<Document>)
    ensures |filtered| <= |docs|
    ensures forall d :: multiset(filtered)[d] == if MatchesQuery(d, query) then multiset(docs)[d] else 0
  {
    if docs == [] then []
    else
      var rest := FilterByQuery(docs[1..], query);
      assert docs == [docs[0]] + docs[1..];
      if MatchesQuery(docs[0], query) then [docs[0]] + rest else rest
  }

  /** Every name contains the empty string, so an empty search keeps every document. */
  lemma {:induction false} EmptyQueryKeepsAll(docs: seq<Document>)
    ensures FilterByQuery(docs, "") == docs
  {
    if docs != [] {
      assert ToLower("") == "";
      IncludesEmpty(ToLower(docs[0].name));
      EmptyQueryKeepsAll(docs[1..]);
    }
  }

  /** Swapping the moving element one place left keeps the inner-loop invariant. */
  lemma {:induction false} SwapStep(s: seq<Document>, o: Ordering, j: int, n: int)
    requires ValidOrdering(o) && 0 < j < n <= |s|
    requires forall p, q :: 0 <= p < q < n && p != j && q != j ==> Before(o, s[p], s[q])
    requires forall q :: j < q < n ==> Before(o, s[j], s[q])
    requires !Before(o, s[j - 1], s[j])
    ensures var t := s[j - 1 := s[j]][j := s[j - 1]];
      && (forall p, q :: 0 <= p < q < n && p != j - 1 && q != j - 1 ==> Before(o, t[p], t[q]))
      && (forall q :: j - 1 < q < n ==> Before(o, t[j - 1], t[q]))
  {
    BeforeTotal(o, s[j - 1], s[j]);
  }

  /** When the moving element has stopped, the prefix up to `n` is sorted. */
  lemma {:induction false} InsertDone(s: seq<Document>, o: Ordering, j: int, n: int)
    requires ValidOrdering(o) && 0 <= j < n <= |s|
    requires forall p, q :: 0 <= p < q < n && p != j && q != j ==> Before(o, s[p], s[q])
    requires forall q :: j < q < n ==> Before(o, s[j], s[q])
    requires j == 0 || Before(o, s[j - 1], s[j])
    ensures SortedPrefix(s, o, n)
  {
    forall p, q | 0 <= p < q < n && q < |s|
      ensures Before(o, s[p], s[q])
    {
      if q == j && p < j - 1 {
        BeforeTransitive(o, s[p], s[j - 1], s[j]);
      }
    }
  }

  /** `filtered.sort(...)`: an insertion sort of the array in place. The
      result is ordered by the comparator and holds the same elements. */
  method SortInPlace(a: array<Document>, o: Ordering)
    requires ValidOrdering(o)
    modifies a
    ensures Sorted(a[..], o)
    ensures multiset(a[..]) == multiset(old(a[..]))
  {
    var i := 0;
    while i < a.Length
      invariant 0 <= i <= a.Length
      invariant SortedPrefix(a[..], o, i)
      invariant multiset(a[..]) == multiset(old(a[..]))
    {
      var j := i;
      while j > 0 && !Before(o, a[j - 1], a[j])
        invariant 0 <= j <= i
        invariant forall p, q :: 0 <= p < q < i + 1 && p != j && q != j ==> Before(o, a[p], a[q])
        invariant forall q :: j < q < i + 1 ==> Before(o, a[j], a[q])
        invariant multiset(a[..]) == multiset(old(a[..]))
      {
        ghost var s := a[..];
        SwapStep(s, o, j, i + 1);
        a[j - 1], a[j] := a[j], a[j - 1];
        assert a[..] == s[j - 1 := s[j]][j := s[j - 1]];
        j := j - 1;
      }
      InsertDone(a[..], o, j, i + 1);
      i := i + 1;
    }
  }

  /** `filteredAndSortedDocuments`: filter, copy, sort. The result holds
      exactly the matching documents, each as often as in the list, ordered
      by the chosen key. */
  method FilteredAndSorted(docs: seq<Document>, query: string, o: Ordering) returns (r: seq<Document>)
    requires ValidOrdering(o)
    ensures multiset(r) == multiset(FilterByQuery(docs, query))
    ensures forall d :: d in r <==> d in docs && MatchesQuery(d, query)
    ensures Sorted(r, o)
    ensures o.key == BySize ==> forall p, q :: 0 <= p < q < |r| ==> r[p].size >= r[q].size
    ensures o.key == ByDate ==> forall p, q :: 0 <= p < q < |r| ==>
      o.timeOf(r[p].uploadedAt) >= o.timeOf(r[q].uploadedAt)
    ensures o.key == ByName ==> forall p, q :: 0 <= p < q < |r| ==> o.nameLe(r[p].name, r[q].name)
  {
    var filtered := FilterByQuery(docs, query);
    var a := new Document[|filtered|](k requires 0 <= k < |filtered| => filtered[k]);
    assert a[..] == filtered;
    SortInPlace(a, o);
    r := a[..];
    forall d ensures d in r <==> d in docs && MatchesQuery(d, query) {
      assert d in r <==> multiset(r)[d] > 0;
      assert d in docs <==> multiset(docs)[d] > 0;
    }
  }

  /** What a load of the list ends with: the documents, an HTTP error
      status, or a thrown error. */
  datatype FetchOutcome = Loaded(docs: seq<Document>) | HttpFailure(status: nat) | NetworkFailure

  /** The component's state: the loaded documents, the loading flag, the
      error line, the search box and the chosen sort key. */
  class DocumentListView {
    var documents: seq<Document>
    var loading: bool
    var error: Option<string>
    var searchQuery: string
    var sortBy: SortKey

    /** The initial state: the `useState` hooks of the component. */
    constructor ()
      ensures documents == [] && loading && error.None? && searchQuery == "" && sortBy == ByName
    {
      documents := [];
      loading := true;
      error := None;
      searchQuery := "";
      sortBy := ByName;
    }

    /** `fetchDocuments`: clears the error, then keeps the loaded list, or
        shows an error and an empty list; loading ends in every case. */
    method FetchDocuments(outcome: FetchOutcome)
      modifies this
      ensures !loading && searchQuery == old(searchQuery) && sortBy == old(sortBy)
      ensures outcome.Loaded? ==> documents == outcome.docs && error.None?
      ensures outcome.HttpFailure? ==>
        documents == [] && error == Some("Failed to load documents (" + Decimal(outcome.status) + ")")
      ensures outcome.NetworkFailure? ==> documents == [] && error == Some("Failed to load documents")
    {
      error := None;
      match outcome {
        case HttpFailure(status) =>
          error := Some("Failed to load documents (" + Decimal(status) + ")");
          documents := [];
          loading := false;
          return;
        case Loaded(data) =>
          documents := data;
        case NetworkFailure =>
          error := Some("Failed to load documents");
          documents := [];
      }
      loading := false;
    }

    /** Typing in the search box. */
    method SetSearchQuery(query: string)
      modifies this
      ensures searchQuery == query
      ensures documents == old(documents) && loading == old(loading) && error == old(error) && sortBy == old(sortBy)
    {
      searchQuery := query;
    }

    /** The search box's clear button: the search box empties and every
        document matches again. */
    method ClearSearch()
      modifies this
      ensures searchQuery == "" && FilterByQuery(documents, searchQuery) == documents
      ensures documents == old(documents) && loading == old(loading) && error == old(error) && sortBy == old(sortBy)
    {
      searchQuery := "";
      EmptyQueryKeepsAll(documents);
    }

    /** The Name, Size and Date buttons. */
    method SetSortBy(key: SortKey)
      modifies this
      ensures sortBy == key
      ensures documents == old(documents) && loading == old(loading) && error == old(error) && searchQuery == old(searchQuery)
    {
      sortBy := key;
    }

    /** The rows shown for the current state: the matching documents, sorted
        by the chosen key under the browser's comparison and date parsing. */
    method Visible(nameLe: (string, string) -> bool, timeOf: string -> int) returns (r: seq<Document>)
      requires ValidOrdering(Ordering(sortBy, nameLe, timeOf))
      ensures multiset(r) == multiset(FilterByQuery(documents, searchQuery))
      ensures Sorted(r, Ordering(sortBy, nameLe, timeOf))
    {
      r := FilteredAndSorted(documents, searchQuery, Ordering(sortBy, nameLe, timeOf));
    }
  }

  /** The line above the rows: the empty-list text or the `Showing … of …` count. */
  datatype ListHeading = NoDocumentsAvailable | NoDocumentsMatch | Showing(shown: nat, total: nat)

  function Heading(documents: seq<Document>, query: string): (h: ListHeading)
    ensures h.NoDocumentsAvailable? <==> documents == []
    ensures h.NoDocumentsMatch? <==> documents != [] && forall d :: d in documents ==> !MatchesQuery(d, query)
    ensures h.Showing? ==> 0 < h.shown <= h.total == |documents|
    ensures h.Showing? ==> h.shown == |FilterByQuery(documents, query)|
  {
    var filtered := FilterByQuery(documents, query);
    if |filtered| == 0 then
      if |documents| == 0 then NoDocumentsAvailable
      else
        assert forall d :: d in documents ==> !MatchesQuery(d, query) by {
          forall d | d in documents ensures !MatchesQuery(d, query) {
            assert multiset(filtered)[d] == 0;
          }
        }
        NoDocumentsMatch
    else
      assert filtered[0] in filtered;
      assert multiset(filtered)[filtered[0]] > 0;
      Showing(|filtered|, |documents|)
  }

  /** What a row offers on its right: the download button or the re-upload notice. */
  datatype RowAction = DownloadButton | ReuploadNeeded

  function RowActionFor(d: Document): (action: RowAction)
    ensures action == DownloadButton <==> d.cloudinaryUrl != ""
  {
    if d.cloudinaryUrl != "" then DownloadButton else ReuploadNeeded
  }

  /** The badge next to a name: `Old` without a URL,
      `Invalid URL` when the URL does not mention the Cloudinary host. */
  datatype Badge = NoBadge | OldBadge | InvalidUrlBadge

  function BadgeFor(d: Document): (b: Badge)
    ensures b == OldBadge <==> d.cloudinaryUrl == ""
    ensures b == InvalidUrlBadge <==> d.cloudinaryUrl != "" && !Includes(d.cloudinaryUrl, DocumentUtils.HostName)
  {
    if d.cloudinaryUrl == "" then OldBadge
    else if !Includes(d.cloudinaryUrl, DocumentUtils.HostName) then InvalidUrlBadge
    else NoBadge
  }

  /** The body of the viewer dialog. */
  datatype ViewerPane =
    | LegacyNotice(name: string)
    | LoadingDocument
    | PdfFrame(src: string)
    | NoPreview(link: string)
    | NoDocumentSelected

  function ViewerPaneFor(selected: Option<Document>, loadingViewUrl: bool, viewUrl: Option<string>): (pane: ViewerPane)
    ensures pane.LegacyNotice? <==> selected.Some? && selected.value.cloudinaryUrl == ""
    ensures pane.NoDocumentSelected? <==> selected.None?
    ensures pane == LoadingDocument <==>
      selected.Some? && selected.value.cloudinaryUrl != "" && loadingViewUrl
    ensures pane.PdfFrame? <==>
      selected.Some? && selected.value.cloudinaryUrl != "" && !loadingViewUrl && Cloudinary.IsPdf(selected.value.name)
    ensures pane.NoPreview? <==>
      selected.Some? && selected.value.cloudinaryUrl != "" && !loadingViewUrl && !Cloudinary.IsPdf(selected.value.name)
    ensures pane.PdfFrame? ==> pane.src != ""
    ensures pane.PdfFrame? ==>
      pane.src == if Truthy(viewUrl) then viewUrl.value else selected.value.cloudinaryUrl
    ensures pane.NoPreview? ==> pane.link == selected.value.cloudinaryUrl
  {
    match selected
    case None => NoDocumentSelected
    case Some(doc) =>
      if doc.cloudinaryUrl == "" then LegacyNotice(doc.name)
      else if loadingViewUrl then LoadingDocument
      else if Cloudinary.IsPdf(doc.name) then PdfFrame(OrDefault(viewUrl, doc.cloudinaryUrl))
      else NoPreview(doc.cloudinaryUrl)
  }

  /** A record stored before the blob store existed is marked `Old`, offers
      no download, and opens on the legacy notice. */
  lemma LegacyRecordNeedsReupload(rec: MongoStorage.StoredRecord, loadingViewUrl: bool, viewUrl: Option<string>)
    requires !Truthy(rec.cloudinaryUrl)
    ensures var d := MongoStorage.Normalize(rec);
      && RowActionFor(d) == ReuploadNeeded
      && BadgeFor(d) == OldBadge
      && ViewerPaneFor(Some(d), loadingViewUrl, viewUrl) == LegacyNotice(rec.name)
  {
  }

  /** An occurrence of the host followed by a slash is an occurrence of the host. */
  lemma DeliveryHostContainsHostName(s: string)
    requires Includes(s, DocumentUtils.DeliveryHost)
    ensures Includes(s, DocumentUtils.HostName)
  {
    var i :| 0 <= i <= |s| - |DocumentUtils.DeliveryHost| && OccursAt(s, DocumentUtils.DeliveryHost, i);
    assert s[i..i + |DocumentUtils.HostName|] == s[i..i + |DocumentUtils.DeliveryHost|][..|DocumentUtils.HostName|];
    assert OccursAt(s, DocumentUtils.HostName, i);
  }

  /** A record the server counts as stored in Cloudinary shows no badge and
      offers the download. */
  lemma {:induction false} ValidStorageShowsDownload(rec: MongoStorage.StoredRecord)
    requires DocumentUtils.HasValidCloudinaryStorage(rec)
    ensures var d := MongoStorage.Normalize(rec);
      RowActionFor(d) == DownloadButton && BadgeFor(d) == NoBadge
  {
    DocumentUtils.ValidUrlContainsHost(rec.cloudinaryUrl.value);
    DeliveryHostContainsHostName(rec.cloudinaryUrl.value);
  }

  /** The badge is weaker than the server's check: a URL that is just the
      host gets no badge, yet the server does not count it as valid. */
  lemma HostOnlyUrlHasNoBadgeButIsInvalid(d: Document)
    requires d.cloudinaryUrl == DocumentUtils.HostName
    ensures BadgeFor(d) == NoBadge
    ensures !DocumentUtils.IsCloudinaryUrlValid(Some(d.cloudinaryUrl))
  {
    IncludesSelf(DocumentUtils.HostName);
    DocumentUtils.CloudNameNeedsClosingSlash("", "");
    assert "" + DocumentUtils.DeliveryHost + "" == DocumentUtils.DeliveryHost;
    DocumentUtils.OneLateSlashIsInvalid(DocumentUtils.HostName);
  }
}
