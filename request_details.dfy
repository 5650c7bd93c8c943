/** The expandable panel that shows the details of one captured network
    request: a summary table, the request and response header tables and,
    when the request has hint records, a tree of those records. The panel's
    content is created lazily on first opening; the DOM it builds is modelled
    by the ordered list of blocks it appends to its content element. */
module RequestDetails {
  import opened Options
  import opened JavaStrings

  datatype Header = Header(key: string, value: string)

  /** A hint record is shown by the hint tree only; the panel never looks inside it. */
  datatype HintRecord = HintRecord(description: string)

  /** The facts about a request that the panel renders and never changes.
      Timestamps are milliseconds; a negative content length means unknown;
      a header collection may be null. */
  datatype Request = Request(
    url: string,
    cached: bool,
    httpMethod: string,
    statusCode: int,
    mimeType: string,
    contentLength: int,
    startTime: real,
    responseReceivedTime: real,
    endTime: real,
    didFail: bool,
    requestHeaders: Option<seq<Header>>,
    responseHeaders: Option<seq<Header>>)

  /** A captured network resource. Hint records are attached to it after the
      capture, so they can change while a panel shows the resource. */
  class NetworkResource {
    const request: Request
    var hintRecords: Option<seq<HintRecord>>

    constructor (request: Request, hintRecords: Option<seq<HintRecord>>)
      ensures this.request == request && this.hintRecords == hintRecords
    {
      this.request := request;
      this.hintRecords := hintRecords;
    }
  }

  // ---------------------------------------------------------------------------
  // Name/value tables

  /** One table row: whether it carries the even-row class, its name cell and its value cell. */
  datatype Row = Row(even: bool, name: string, value: string)

  /** The per-table stripe toggle. It starts at "even", so the first call
      answers false and later calls alternate. */
  class OddEvenIterator {
    var even: bool

    constructor ()
      ensures even
    {
      even := true;
    }

    method Next() returns (isEven: bool)
      modifies this
      ensures even == !old(even)
      ensures isEven == even
    {
      even := !even;
      isEven := even;
    }
  }

  /** Row i (counting from 0) carries the even-row class exactly when i is odd. */
  predicate IsStriped(rows: seq<Row>) {
    forall i :: 0 <= i < |rows| ==> rows[i].even == (i % 2 == 1)
  }

  /** The table built from a header collection: one row per header, in
      enumeration order, striped; a null collection gives no rows. */
  predicate IsHeaderTable(rows: seq<Row>, headers: Option<seq<Header>>) {
    match headers
    case None => rows == []
    case Some(hs) =>
      |rows| == |hs| && IsStriped(rows) &&
      forall i :: 0 <= i < |rows| ==> rows[i].name == hs[i].key && rows[i].value == hs[i].value
  }

  /** Appends one row per header, each striped by a fresh iterator. */
  method FillHeaderTable(headers: Option<seq<Header>>) returns (rows: seq<Row>)
    ensures IsHeaderTable(rows, headers)
  {
    rows := [];
    if headers.Some? {
      var hs := headers.value;
      var iter := new OddEvenIterator();
      var i := 0;
      while i < |hs|
        invariant 0 <= i <= |hs|
        invariant iter.even == (i % 2 == 0)
        invariant |rows| == i
        invariant IsStriped(rows)
        invariant forall k :: 0 <= k < i ==> rows[k].name == hs[k].key && rows[k].value == hs[k].value
      {
        var isEven := iter.Next();
        rows := rows + [Row(isEven, hs[i].key, hs[i].value)];
        i := i + 1;
      }
    }
  }

  /** A header table is determined by its headers. */
  lemma HeaderTableUnique(rows1: seq<Row>, rows2: seq<Row>, headers: Option<seq<Header>>)
    requires IsHeaderTable(rows1, headers) && IsHeaderTable(rows2, headers)
    ensures rows1 == rows2
  {
    if headers.Some? {
      forall i | 0 <= i < |rows1| ensures rows1[i] == rows2[i] {
        assert rows1[i].even == rows2[i].even;
      }
    }
  }

  // ---------------------------------------------------------------------------
  // Summary strings

  /** "@<start> for <duration>", both formatted by the millisecond formatter
      `formatMs`: a span always starts with '@' and adds six characters to the
      two formatted times. */
  function FormatTimeSpan(formatMs: real -> string, startTime: real, endTime: real): (s: string)
    ensures |s| > 0 && s[0] == '@'
    ensures |s| == |formatMs(startTime)| + |formatMs(endTime - startTime)| + 6
  {
    "@" + formatMs(startTime) + " for " + formatMs(endTime - startTime)
  }

  /** A span reads back as its start and its duration. */
  lemma FormatTimeSpanParts(formatMs: real -> string, startTime: real, endTime: real)
    ensures var s := FormatTimeSpan(formatMs, startTime, endTime);
            var a, d := formatMs(startTime), formatMs(endTime - startTime);
            s[1..|a| + 1] == a && s[|a| + 1..|a| + 6] == " for " && s[|a| + 6..] == d
  {
  }

  datatype Timings = Timings(request: string, response: string, total: string)

  /** The three timing strings of the summary table. The response timing is
      "No response" exactly for a failed request, and a failure is flagged on
      the total. */
  function SummaryTimings(r: Request, formatMs: real -> string): (t: Timings)
    ensures t.response == "No response" <==> r.didFail
    ensures r.didFail ==> t.total == t.request + " with an error"
  {
    if r.didFail then
      Timings(FormatTimeSpan(formatMs, r.startTime, r.endTime),
              "No response",
              FormatTimeSpan(formatMs, r.startTime, r.endTime) + " with an error")
    else
      Timings(FormatTimeSpan(formatMs, r.startTime, r.responseReceivedTime),
              FormatTimeSpan(formatMs, r.responseReceivedTime, r.endTime),
              FormatTimeSpan(formatMs, r.startTime, r.endTime))
  }

  /** A failed request has no response: its request timing covers the whole
      request and the total is that span marked as an error. */
  lemma FailedRequestTimings(r: Request, formatMs: real -> string)
    requires r.didFail
    ensures var t := SummaryTimings(r, formatMs);
            t.request == FormatTimeSpan(formatMs, r.startTime, r.endTime) &&
            t.response == "No response" &&
            t.total == t.request + " with an error"
  {
  }

  /** A completed request splits at the moment the response arrived. */
  lemma CompletedRequestTimings(r: Request, formatMs: real -> string)
    requires !r.didFail
    ensures var t := SummaryTimings(r, formatMs);
            t.request == FormatTimeSpan(formatMs, r.startTime, r.responseReceivedTime) &&
            t.response == FormatTimeSpan(formatMs, r.responseReceivedTime, r.endTime) &&
            t.total == FormatTimeSpan(formatMs, r.startTime, r.endTime)
  {
  }

  /** In both cases the request timing starts at the request's start, and the
      total timing begins with the span from start to end. */
  lemma TimingsStartAtRequestStart(r: Request, formatMs: real -> string)
    ensures var t := SummaryTimings(r, formatMs);
            var whole := FormatTimeSpan(formatMs, r.startTime, r.endTime);
            var startsAt := "@" + formatMs(r.startTime) + " for ";
            startsAt <= t.request && whole <= t.total &&
            (t.response == "No response" ||
             t.response == FormatTimeSpan(formatMs, r.responseReceivedTime, r.endTime))
  {
  }

  /** A failed request that started at 10 ms and ended at 50 ms, with a formatter that writes "<n>ms". */
  lemma FailedTimingExample(r: Request, formatMs: real -> string)
    requires r.didFail && r.startTime == 10.0 && r.endTime == 50.0
    requires formatMs(10.0) == "10ms" && formatMs(40.0) == "40ms"
    ensures SummaryTimings(r, formatMs) ==
            Timings("@10ms for 40ms", "No response", "@10ms for 40ms with an error")
  {
  }

  /** A completed request: start 0 ms, response at 20 ms, end at 50 ms. */
  lemma CompletedTimingExample(r: Request, formatMs: real -> string)
    requires !r.didFail && r.startTime == 0.0 && r.responseReceivedTime == 20.0 && r.endTime == 50.0
    requires formatMs(0.0) == "0ms" && formatMs(20.0) == "20ms" && formatMs(30.0) == "30ms"
    requires formatMs(50.0) == "50ms"
    ensures SummaryTimings(r, formatMs) == Timings("@0ms for 20ms", "@20ms for 30ms", "@0ms for 50ms")
  {
  }

  /** The "Total Bytes" cell: blank when the length is unknown (negative),
      otherwise the decimal length followed by " bytes". */
  function ContentLengthString(contentLength: int): (s: string)
    ensures s == "" <==> contentLength < 0
    ensures contentLength >= 0 ==>
              |s| > 6 && s[|s| - 6..] == " bytes" &&
              IsCanonicalDecimal(s[..|s| - 6]) && DigitsValue(s[..|s| - 6]) == contentLength
  {
    if contentLength < 0 then ""
    else
      var digits := NatToString(contentLength);
      assert (digits + " bytes")[..|digits|] == digits;
      digits + " bytes"
  }

  const SummaryTitles: seq<string> :=
    ["URL", "From Cache", "Method", "Http Status", "Mime-type",
     "Total Bytes", "Request Timing", "Response Timing", "Total Timing"]

  /** The value column of the summary table, row by row. */
  function SummaryValues(r: Request, formatMs: real -> string): seq<string> {
    var t := SummaryTimings(r, formatMs);
    [r.url, BoolToString(r.cached), r.httpMethod, IntToString(r.statusCode), r.mimeType,
     ContentLengthString(r.contentLength), t.request, t.response, t.total]
  }

  /** The summary table: nine striped rows with the fixed titles, in order. */
  predicate IsSummaryTable(rows: seq<Row>, r: Request, formatMs: real -> string) {
    |rows| == |SummaryTitles| && IsStriped(rows) &&
    forall i :: 0 <= i < |rows| ==>
      rows[i].name == SummaryTitles[i] && rows[i].value == SummaryValues(r, formatMs)[i]
  }

  /** Appends the nine summary rows, striped by one fresh iterator. */
  method FillSummaryTable(r: Request, formatMs: real -> string) returns (rows: seq<Row>)
    ensures IsSummaryTable(rows, r, formatMs)
  {
    var iter := new OddEvenIterator();
    var isEven := iter.Next();
    rows := [Row(isEven, "URL", r.url)];
    isEven := iter.Next();
    rows := rows + [Row(isEven, "From Cache", BoolToString(r.cached))];
    isEven := iter.Next();
    rows := rows + [Row(isEven, "Method", r.httpMethod)];
    isEven := iter.Next();
    rows := rows + [Row(isEven, "Http Status", IntToString(r.statusCode))];
    isEven := iter.Next();
    rows := rows + [Row(isEven, "Mime-type", r.mimeType)];

    var timings := SummaryTimings(r, formatMs);

    isEven := iter.Next();
    rows := rows + [Row(isEven, "Total Bytes", ContentLengthString(r.contentLength))];
    isEven := iter.Next();
    rows := rows + [Row(isEven, "Request Timing", timings.request)];
    isEven := iter.Next();
    rows := rows + [Row(isEven, "Response Timing", timings.response)];
    isEven := iter.Next();
    rows := rows + [Row(isEven, "Total Timing", timings.total)];
    SummaryRowsInOrder(rows, r, formatMs);
  }

  /** The nine rows, spelled out one by one, form the summary table. */
  lemma SummaryRowsInOrder(rows: seq<Row>, r: Request, formatMs: real -> string)
    requires var t := SummaryTimings(r, formatMs);
             rows == [
               Row(false, "URL", r.url), Row(true, "From Cache", BoolToString(r.cached)),
               Row(false, "Method", r.httpMethod), Row(true, "Http Status", IntToString(r.statusCode)),
               Row(false, "Mime-type", r.mimeType), Row(true, "Total Bytes", ContentLengthString(r.contentLength)),
               Row(false, "Request Timing", t.request), Row(true, "Response Timing", t.response),
               Row(false, "Total Timing", t.total)]
    ensures IsSummaryTable(rows, r, formatMs)
  {
  }

  /** The Http Status cell reads back as the status code. */
  lemma SummaryStatusReadsBack(rows: seq<Row>, r: Request, formatMs: real -> string)
    requires IsSummaryTable(rows, r, formatMs)
    ensures rows[3].name == "Http Status"
    ensures IsIntString(rows[3].value) && IntValue(rows[3].value) == r.statusCode
  {
    assert rows[3].value == SummaryValues(r, formatMs)[3];
  }

  // ---------------------------------------------------------------------------
  // Content of the panel

  /** A child of the content element: the wrapper reserved for the hint tree
      (numbered by the populate that made it), a section header, or a table. */
  datatype Block = HintletTreeWrapper(id: nat) | SectionHeader(text: string) | NameValueTable(rows: seq<Row>)

  const SectionTitles: seq<string> := ["Summary", "Request Headers", "Response Headers"]

  /** What one populate leaves in the content element: the tree wrapper, then
      Summary, Request Headers and Response Headers, each a header and its table. */
  ghost predicate IsPopulated(children: seq<Block>, r: Request, formatMs: real -> string, wrapperId: nat) {
    |children| == 7 &&
    children[0] == HintletTreeWrapper(wrapperId) &&
    children[1] == SectionHeader(SectionTitles[0]) &&
    children[2].NameValueTable? && IsSummaryTable(children[2].rows, r, formatMs) &&
    children[3] == SectionHeader(SectionTitles[1]) &&
    children[4].NameValueTable? && IsHeaderTable(children[4].rows, r.requestHeaders) &&
    children[5] == SectionHeader(SectionTitles[2]) &&
    children[6].NameValueTable? && IsHeaderTable(children[6].rows, r.responseHeaders)
  }

  /** Builds the content element's children in order: the tree wrapper, then
      the Summary, Request Headers and Response Headers sections, each a
      header followed by its table. */
  method BuildContent(r: Request, formatMs: real -> string, wrapperId: nat) returns (children: seq<Block>)
    ensures IsPopulated(children, r, formatMs, wrapperId)
  {
    var summary := FillSummaryTable(r, formatMs);
    var requestRows := FillHeaderTable(r.requestHeaders);
    var responseRows := FillHeaderTable(r.responseHeaders);
    children := [HintletTreeWrapper(wrapperId),
                 SectionHeader(SectionTitles[0]), NameValueTable(summary),
                 SectionHeader(SectionTitles[1]), NameValueTable(requestRows),
                 SectionHeader(SectionTitles[2]), NameValueTable(responseRows)];
  }

  /** The texts of the section headers among `children`, in order. */
  function SectionHeaders(children: seq<Block>): seq<string> {
    if children == [] then []
    else (if children[0].SectionHeader? then [children[0].text] else []) + SectionHeaders(children[1..])
  }

  /** Populating yields the three sections in their fixed order. */
  lemma PopulatedSectionOrder(children: seq<Block>, r: Request, formatMs: real -> string, wrapperId: nat)
    requires IsPopulated(children, r, formatMs, wrapperId)
    ensures SectionHeaders(children) == SectionTitles
  {
    assert SectionHeaders(children[7..]) == [];
    assert SectionHeaders(children[6..]) == [] by { assert children[6..][1..] == children[7..]; }
    assert SectionHeaders(children[5..]) == [SectionTitles[2]] by { assert children[5..][1..] == children[6..]; }
    assert SectionHeaders(children[4..]) == [SectionTitles[2]] by { assert children[4..][1..] == children[5..]; }
    assert SectionHeaders(children[3..]) == SectionTitles[1..] by { assert children[3..][1..] == children[4..]; }
    assert SectionHeaders(children[2..]) == SectionTitles[1..] by { assert children[2..][1..] == children[3..]; }
    assert SectionHeaders(children[1..]) == SectionTitles by { assert children[1..][1..] == children[2..]; }
    assert children[1..] == children[0..][1..];
  }

  /** The content of a populate is determined by the request and the wrapper:
      repopulating from the same request rebuilds the same content. */
  lemma PopulatedUnique(c1: seq<Block>, c2: seq<Block>, r: Request, formatMs: real -> string, wrapperId: nat)
    requires IsPopulated(c1, r, formatMs, wrapperId) && IsPopulated(c2, r, formatMs, wrapperId)
    ensures c1 == c2
  {
    HeaderTableUnique(c1[4].rows, c2[4].rows, r.requestHeaders);
    HeaderTableUnique(c1[6].rows, c2[6].rows, r.responseHeaders);
    assert c1[2].rows == c2[2].rows by {
      forall i | 0 <= i < |c1[2].rows| ensures c1[2].rows[i] == c2[2].rows[i] {
        assert c1[2].rows[i].even == c2[2].rows[i].even;
      }
    }
    forall i | 0 <= i < 7 ensures c1[i] == c2[i] {
    }
  }

  // ---------------------------------------------------------------------------
  // The panel

  /** The `display` style of the panel's element. */
  datatype Display = DisplayUnset | DisplayBlock | DisplayNone

  /** The panel's height style: never set, collapsed to 0px, or fitted to the
      content's rendered height as measured at the last opening or tree
      expansion (a later update or refresh does not refit it). */
  datatype Height = HeightUnset | HeightZero | HeightFitted

  /** The style class of the request's pillbox in the overview list. */
  datatype PillBoxStyle = PillBoxWrapper | PillBoxWrapperSelected

  /** The hint tree: the wrapper it was built into and the records it shows. */
  datatype HintletTree = HintletTree(wrapperId: nat, records: seq<HintRecord>)

  class RequestDetails {
    var info: NetworkResource
    var isVisible: bool
    /** The content element: null until first opened, then its children. */
    var contentElem: Option<seq<Block>>
    var hintletTreeWrapper: Option<nat>
    var hintletTree: Option<HintletTree>
    var display: Display
    var height: Height
    var pillBox: PillBoxStyle
    /** How many populates have run; populate n builds wrapper n. */
    var populateCount: nat
    /** How many hint trees have been constructed. */
    var treesCreated: nat
    /** The millisecond formatter used for the timing strings. */
    const formatMs: real -> string

    ghost predicate TreeIdsValid()
      reads this`hintletTree, this`populateCount
    {
      hintletTree.Some? ==> 0 < hintletTree.value.wrapperId <= populateCount
    }

    ghost predicate ContentValid()
      reads this`info, this`contentElem, this`hintletTreeWrapper, this`hintletTree, this`populateCount
    {
      TreeIdsValid() &&
      (contentElem.None? ==> hintletTreeWrapper.None? && hintletTree.None? && populateCount == 0) &&
      (contentElem.Some? ==>
         populateCount > 0 && hintletTreeWrapper == Some(populateCount) &&
         IsPopulated(contentElem.value, info.request, formatMs, populateCount))
    }

    /** An open panel has content, is displayed with its fitted height, and selects its pillbox. */
    ghost predicate VisibilityValid()
      reads this
    {
      isVisible ==>
        contentElem.Some? && display == DisplayBlock && height == HeightFitted &&
        pillBox == PillBoxWrapperSelected
    }

    ghost predicate Valid()
      reads this
    {
      ContentValid() && VisibilityValid()
    }

    /** Any hint tree lives in the current wrapper. */
    ghost predicate TreeAttached()
      reads this
    {
      hintletTree.Some? ==> hintletTreeWrapper == Some(hintletTree.value.wrapperId)
    }

    /** The resource's current hint records are on screen, in the current wrapper. */
    predicate HintsShown()
      reads this, info
    {
      hintletTree.Some? && hintletTreeWrapper == Some(hintletTree.value.wrapperId) &&
      info.hintRecords == Some(hintletTree.value.records)
    }

    constructor (networkResource: NetworkResource, formatMs: real -> string)
      ensures Valid() && TreeAttached()
      ensures info == networkResource && this.formatMs == formatMs
      ensures !isVisible && contentElem.None? && hintletTree.None?
      ensures display == DisplayUnset && height == HeightUnset && pillBox == PillBoxWrapper
      ensures populateCount == 0 && treesCreated == 0
    {
      info := networkResource;
      isVisible := false;
      contentElem := None;
      hintletTreeWrapper := None;
      hintletTree := None;
      display := DisplayUnset;
      height := HeightUnset;
      pillBox := PillBoxWrapper;
      populateCount := 0;
      treesCreated := 0;
      this.formatMs := formatMs;
    }

    /** Brings the hint tree up to date with the resource's hint records, once
        a populate has made the wrapper; creates the tree if there is none. */
    method Refresh()
      requires Valid()
      modifies this`hintletTree, this`treesCreated
      ensures Valid()
      ensures old(hintletTreeWrapper.None?) || info.hintRecords.None? ==>
                hintletTree == old(hintletTree) && treesCreated == old(treesCreated)
      ensures old(hintletTreeWrapper.Some?) && info.hintRecords.Some? && old(hintletTree.None?) ==>
                hintletTree == Some(HintletTree(hintletTreeWrapper.value, info.hintRecords.value)) &&
                treesCreated == old(treesCreated) + 1
      ensures old(hintletTreeWrapper.Some?) && info.hintRecords.Some? && old(hintletTree.Some?) ==>
                hintletTree == Some(old(hintletTree).value.(records := info.hintRecords.value)) &&
                treesCreated == old(treesCreated)
      ensures old(TreeAttached()) ==> TreeAttached()
      ensures old(TreeAttached()) && hintletTreeWrapper.Some? && info.hintRecords.Some? ==> HintsShown()
    {
      if hintletTreeWrapper.Some? && info.hintRecords.Some? {
        if hintletTree.None? {
          CreateHintletTree();
        } else {
          hintletTree := Some(hintletTree.value.(records := info.hintRecords.value));
        }
      }
    }

    /** Opens a closed panel or closes an open one, and answers whether it is now open. */
    method ToggleVisibility() returns (visible: bool)
      requires Valid()
      modifies this
      ensures Valid()
      ensures visible == isVisible && isVisible == !old(isVisible)
      ensures info == old(info)
      ensures old(isVisible) ==>
                height == HeightZero && display == old(display) && pillBox == old(pillBox)
      ensures !old(isVisible) ==>
                display == DisplayBlock && height == HeightFitted && pillBox == PillBoxWrapperSelected
      ensures old(contentElem.None?) ==>
                populateCount == 1 && hintletTreeWrapper == Some(1) &&
                hintletTree == (if info.hintRecords.Some? then Some(HintletTree(1, info.hintRecords.value)) else None) &&
                treesCreated == old(treesCreated) + (if info.hintRecords.Some? then 1 else 0)
      ensures old(contentElem.Some?) ==>
                contentElem == old(contentElem) && populateCount == old(populateCount) &&
                hintletTreeWrapper == old(hintletTreeWrapper) && hintletTree == old(hintletTree) &&
                treesCreated == old(treesCreated)
      ensures old(TreeAttached()) ==> TreeAttached()
    {
      if isVisible {
        height, isVisible := HeightZero, false;
      } else {
        Open();
      }
      visible := isVisible;
    }

    /** The opening half of ToggleVisibility: the content is built on the
        first opening only, then the panel is shown at its fitted height. */
    method Open()
      requires Valid() && !isVisible
      modifies this
      ensures Valid() && isVisible && info == old(info)
      ensures display == DisplayBlock && height == HeightFitted && pillBox == PillBoxWrapperSelected
      ensures old(contentElem.None?) ==>
                populateCount == 1 && hintletTreeWrapper == Some(1) &&
                hintletTree == (if info.hintRecords.Some? then Some(HintletTree(1, info.hintRecords.value)) else None) &&
                treesCreated == old(treesCreated) + (if info.hintRecords.Some? then 1 else 0)
      ensures old(contentElem.Some?) ==>
                contentElem == old(contentElem) && populateCount == old(populateCount) &&
                hintletTreeWrapper == old(hintletTreeWrapper) && hintletTree == old(hintletTree) &&
                treesCreated == old(treesCreated)
      ensures old(TreeAttached()) ==> TreeAttached()
    {
      if contentElem.None? {
        contentElem := Some([]);
        PopulateContent();
      }
      display, height, pillBox, isVisible := DisplayBlock, HeightFitted, PillBoxWrapperSelected, true;
    }

    /** Shows another resource: the content is rebuilt at once, open or not. */
    method UpdateInfo(networkResource: NetworkResource)
      requires Valid() && contentElem.Some?
      modifies this
      ensures Valid() && TreeAttached()
      ensures info == networkResource
      ensures populateCount == old(populateCount) + 1
      ensures IsPopulated(contentElem.value, networkResource.request, formatMs, populateCount)
      ensures hintletTree == (if info.hintRecords.Some? then Some(HintletTree(populateCount, info.hintRecords.value)) else None)
      ensures treesCreated == old(treesCreated) + (if info.hintRecords.Some? then 1 else 0)
      ensures isVisible == old(isVisible) && display == old(display) && height == old(height)
      ensures pillBox == old(pillBox)
    {
      info := networkResource;
      PopulateContent();
    }

    /** The update exactly as the panel's code does it, with the populate as written. */
    method UpdateInfoAsWritten(networkResource: NetworkResource)
      requires Valid() && contentElem.Some?
      modifies this
      ensures Valid()
      ensures info == networkResource
      ensures populateCount == old(populateCount) + 1
      ensures IsPopulated(contentElem.value, networkResource.request, formatMs, populateCount)
      ensures hintletTree == (if info.hintRecords.Some? then Some(HintletTree(populateCount, info.hintRecords.value)) else old(hintletTree))
      ensures treesCreated == old(treesCreated) + (if info.hintRecords.Some? then 1 else 0)
      ensures isVisible == old(isVisible) && display == old(display) && height == old(height)
      ensures pillBox == old(pillBox)
    {
      info := networkResource;
      PopulateContentAsWritten();
    }

    /** The collapse transition has ended: a panel that is still closed is
        hidden and its pillbox loses the selected style. */
    method OnTransitionEnd()
      requires Valid()
      modifies this`display, this`pillBox
      ensures Valid()
      ensures !isVisible ==> display == DisplayNone && pillBox == PillBoxWrapper
      ensures isVisible ==> display == old(display) && pillBox == old(pillBox)
    {
      if !isVisible {
        display := DisplayNone;
        pillBox := PillBoxWrapper;
      }
    }

    method CreateHintletTree()
      requires hintletTreeWrapper.Some? && info.hintRecords.Some?
      modifies this`hintletTree, this`treesCreated
      ensures hintletTree == Some(HintletTree(hintletTreeWrapper.value, info.hintRecords.value))
      ensures treesCreated == old(treesCreated) + 1
    {
      hintletTree := Some(HintletTree(hintletTreeWrapper.value, info.hintRecords.value));
      treesCreated := treesCreated + 1;
    }

    /** Rebuilds the content from `info`: a new tree wrapper (with a new tree
        when there are hint records, and no tree otherwise), then the three
        sections. Dropping the old tree when there are no hint records is the
        correction of PopulateContentAsWritten. */
    method PopulateContent()
      requires contentElem.Some? && VisibilityValid() && TreeIdsValid()
      modifies this`contentElem, this`hintletTreeWrapper, this`hintletTree, this`populateCount, this`treesCreated
      ensures Valid() && TreeAttached()
      ensures populateCount == old(populateCount) + 1
      ensures hintletTree == (if info.hintRecords.Some? then Some(HintletTree(populateCount, info.hintRecords.value)) else None)
      ensures treesCreated == old(treesCreated) + (if info.hintRecords.Some? then 1 else 0)
    {
      var children := BuildContent(info.request, formatMs, populateCount + 1);
      populateCount, hintletTreeWrapper, contentElem := populateCount + 1, Some(populateCount + 1), Some(children);
      if info.hintRecords.Some? {
        CreateHintletTree();
      } else {
        hintletTree := None;
      }
    }

    /** The populate step exactly as the panel's code does it: with no hint
        records, the previous tree is kept although its wrapper is gone. */
    method PopulateContentAsWritten()
      requires contentElem.Some? && VisibilityValid() && TreeIdsValid()
      modifies this`contentElem, this`hintletTreeWrapper, this`hintletTree, this`populateCount, this`treesCreated
      ensures Valid()
      ensures populateCount == old(populateCount) + 1
      ensures hintletTree == (if info.hintRecords.Some? then Some(HintletTree(populateCount, info.hintRecords.value)) else old(hintletTree))
      ensures treesCreated == old(treesCreated) + (if info.hintRecords.Some? then 1 else 0)
    {
      var children := BuildContent(info.request, formatMs, populateCount + 1);
      populateCount, hintletTreeWrapper, contentElem := populateCount + 1, Some(populateCount + 1), Some(children);
      if info.hintRecords.Some? {
        CreateHintletTree();
      }
    }
  }

  // ---------------------------------------------------------------------------
  // Scenarios over a fresh panel

  /** Toggling a new panel three times answers open, closed, open, and the
      content is built by the first opening only. */
  method OpenCloseOpen(request: Request, hints: Option<seq<HintRecord>>, formatMs: real -> string)
    returns (first: bool, second: bool, third: bool, populates: nat, trees: nat)
    ensures first && !second && third
    ensures populates == 1
    ensures trees == (if hints.Some? then 1 else 0)
  {
    var resource := new NetworkResource(request, hints);
    var panel := new RequestDetails(resource, formatMs);
    first := panel.ToggleVisibility();
    second := panel.ToggleVisibility();
    third := panel.ToggleVisibility();
    populates := panel.populateCount;
    trees := panel.treesCreated;
  }

  /** Closing and reopening before the collapse transition ends: the late
      callback leaves the reopened panel displayed and selected. */
  method ReopenBeforeTransitionEnd(request: Request, formatMs: real -> string)
    returns (display: Display, pillBox: PillBoxStyle)
    ensures display == DisplayBlock && pillBox == PillBoxWrapperSelected
  {
    var resource := new NetworkResource(request, None);
    var panel := new RequestDetails(resource, formatMs);
    var _ := panel.ToggleVisibility();
    var _ := panel.ToggleVisibility();
    var _ := panel.ToggleVisibility();
    panel.OnTransitionEnd();
    display, pillBox := panel.display, panel.pillBox;
  }

  /** Closing and letting the transition end hides the panel and deselects its pillbox. */
  method CloseThenTransitionEnd(request: Request, formatMs: real -> string)
    returns (display: Display, pillBox: PillBoxStyle)
    ensures display == DisplayNone && pillBox == PillBoxWrapper
  {
    var resource := new NetworkResource(request, None);
    var panel := new RequestDetails(resource, formatMs);
    var _ := panel.ToggleVisibility();
    var _ := panel.ToggleVisibility();
    panel.OnTransitionEnd();
    display, pillBox := panel.display, panel.pillBox;
  }

  /** With the populate as written: a panel opened on a resource with hints,
      updated to a resource without hints that gains hints later, refreshes
      the old tree in the discarded wrapper, so the new hints are not shown. */
  method StaleHintTreeAsWritten(request: Request, hints: seq<HintRecord>, formatMs: real -> string)
    returns (shown: bool)
    ensures !shown
  {
    var first := new NetworkResource(request, Some(hints));
    var panel := new RequestDetails(first, formatMs);
    var _ := panel.ToggleVisibility();
    var second := new NetworkResource(request, None);
    panel.UpdateInfoAsWritten(second);
    second.hintRecords := Some(hints);
    panel.Refresh();
    shown := panel.HintsShown();
  }

  /** The same sequence with the corrected populate: the refresh builds a tree
      in the current wrapper, so the new hints are shown. */
  method HintTreeAfterUpdate(request: Request, hints: seq<HintRecord>, formatMs: real -> string)
    returns (shown: bool)
    ensures shown
  {
    var first := new NetworkResource(request, Some(hints));
    var panel := new RequestDetails(first, formatMs);
    var _ := panel.ToggleVisibility();
    var second := new NetworkResource(request, None);
    panel.UpdateInfo(second);
    second.hintRecords := Some(hints);
    panel.Refresh();
    shown := panel.HintsShown();
  }
}
