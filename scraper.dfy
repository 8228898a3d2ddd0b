/** The table extraction of `retrieve_table` in ncep_scraper.py: the
    non-greedy `re.findall` captures of rows and cells in the table's text,
    and the loop that converts the cells of every row after the first. The
    HTTP request and the HTML parser are outside the model: the response is
    an input, and so is Python's `float()` (`None` where it raises
    ValueError). */
module Scraper {

  import opened Common
  import Text

  /** `t` occurs in `s` at position `i`. */
  predicate StartsAt(s: string, i: nat, t: string)
  {
    i + |t| <= |s| && forall j :: 0 <= j < |t| ==> s[i + j] == t[j]
  }

  /** The lazy `(.*?)` followed by `close`, tried from position `j`: the
      first position at or after `j` where `close` occurs, provided no
      newline comes before it (`.` does not match a newline). */
  function ScanClose(s: string, j: nat, close: string): (k: Option<nat>)
    ensures k.Some? ==> j <= k.value && k.value + |close| <= |s|
    decreases |s| - j
  {
    if StartsAt(s, j, close) then Some(j)
    else if j >= |s| || s[j] == '\n' then None
    else ScanClose(s, j + 1, close)
  }

  /** A found `close` is the first one after `j`; none is found exactly
      when every `close` after `j` has a newline before it. */
  lemma {:induction false} ScanCloseFirst(s: string, j: nat, close: string)
    ensures var k := ScanClose(s, j, close);
            k.Some? ==> StartsAt(s, k.value, close) && forall p :: j <= p < k.value ==> !StartsAt(s, p, close)
    ensures ScanClose(s, j, close).None? ==>
              forall p :: j <= p && StartsAt(s, p, close) ==> exists q :: j <= q < p && s[q] == '\n'
    decreases |s| - j
  {
    if !StartsAt(s, j, close) && j < |s| && s[j] != '\n' {
      ScanCloseFirst(s, j + 1, close);
    }
  }

  /** No newline comes before a found `close`. */
  lemma {:induction false} ScanCloseOnOneLine(s: string, j: nat, close: string)
    ensures var k := ScanClose(s, j, close);
            k.Some? ==> forall p :: j <= p < k.value ==> s[p] != '\n'
    decreases |s| - j
  {
    if !StartsAt(s, j, close) && j < |s| && s[j] != '\n' {
      ScanCloseOnOneLine(s, j + 1, close);
    }
  }

  /** The pattern `open(.*?)close` matches at position `p`. */
  predicate MatchAt(s: string, p: nat, open: string, close: string)
  {
    StartsAt(s, p, open) && ScanClose(s, p + |open|, close).Some?
  }

  /** One match: `open` starts at `from`, `close` at `to`, and the capture
      lies between them. */
  datatype Span = Span(from: nat, to: nat)

  /** The search for the pattern from position `i`: the match at the first
      position where it matches. */
  function NextMatch(s: string, i: nat, open: string, close: string): (m: Option<Span>)
    ensures m.Some? ==> i <= m.value.from && m.value.from + |open| <= m.value.to
    ensures m.Some? ==> StartsAt(s, m.value.from, open) && ScanClose(s, m.value.from + |open|, close) == Some(m.value.to)
    decreases |s| - i
  {
    if i >= |s| then None
    else if MatchAt(s, i, open, close) then Some(Span(i, ScanClose(s, i + |open|, close).value))
    else NextMatch(s, i + 1, open, close)
  }

  /** `sp` is the match found by a search from `lo`: the pattern matches at
      `sp.from`, nowhere in between, and the capture ends at the first
      `close`. */
  predicate Leftmost(s: string, open: string, close: string, lo: nat, sp: Span)
  {
    && lo <= sp.from
    && StartsAt(s, sp.from, open)
    && ScanClose(s, sp.from + |open|, close) == Some(sp.to)
    && forall p :: lo <= p < sp.from ==> !MatchAt(s, p, open, close)
  }

  /** The pattern matches nowhere from `lo` on (it cannot match at or
      after the end). */
  predicate NoMatchFrom(s: string, open: string, close: string, lo: nat)
  {
    forall p :: lo <= p < |s| ==> !MatchAt(s, p, open, close)
  }

  /** The search finds the leftmost match, and finds none exactly when the
      pattern matches nowhere from `i` on. */
  lemma {:induction false} NextMatchLeftmost(s: string, i: nat, open: string, close: string)
    ensures NextMatch(s, i, open, close).Some? ==> Leftmost(s, open, close, i, NextMatch(s, i, open, close).value)
    ensures NextMatch(s, i, open, close).None? <==> NoMatchFrom(s, open, close, i)
    decreases |s| - i
  {
    if i < |s| && !MatchAt(s, i, open, close) {
      NextMatchLeftmost(s, i + 1, open, close);
    }
  }

  /** The matches `re.findall` finds from position `i`, left to right: the
      one the search from `i` finds, then those from the end of it. */
  function Spans(s: string, i: nat, open: string, close: string): (ms: seq<Span>)
    requires |open| > 0
    ensures forall k :: 0 <= k < |ms| ==> i <= ms[k].from && ms[k].from + |open| <= ms[k].to <= |s|
    decreases |s| - i
  {
    match NextMatch(s, i, open, close)
    case None => []
    case Some(sp) => [sp] + Spans(s, sp.to + |close|, open, close)
  }

  /** The captured groups of the matches. */
  function Captures(s: string, ms: seq<Span>, open: string): (cs: seq<string>)
    requires forall k :: 0 <= k < |ms| ==> ms[k].from + |open| <= ms[k].to <= |s|
    ensures |cs| == |ms|
  {
    if |ms| == 0 then [] else [s[ms[0].from + |open|..ms[0].to]] + Captures(s, ms[1..], open)
  }

  /** Capture `k` is the text between the `open` and the `close` of match
      `k`. */
  lemma {:induction false} CaptureAt(s: string, ms: seq<Span>, open: string, k: nat)
    requires forall j :: 0 <= j < |ms| ==> ms[j].from + |open| <= ms[j].to <= |s|
    requires k < |ms|
    ensures Captures(s, ms, open)[k] == s[ms[k].from + |open|..ms[k].to]
    decreases k
  {
    if k > 0 {
      CaptureAt(s, ms[1..], open, k - 1);
    }
  }

  /** `re.findall(open + '(.*?)' + close, s)`: one capture per match, none
      of them holding a newline. */
  function FindAll(s: string, open: string, close: string): (cs: seq<string>)
    requires |open| > 0
    ensures |cs| == |Spans(s, 0, open, close)|
    ensures forall k, j :: 0 <= k < |cs| && 0 <= j < |cs[k]| ==> cs[k][j] != '\n'
  {
    CapturesOnOneLine(s, open, close);
    Captures(s, Spans(s, 0, open, close), open)
  }

  /** Where the search for match `k` starts: at `i` for the first, after
      the `close` of the previous match for the others. */
  function Resume(ms: seq<Span>, k: nat, i: nat, close: string): nat
    requires k <= |ms|
  {
    if k == 0 then i else ms[k - 1].to + |close|
  }

  /** Match `k` of `Spans` is what the search finds from the end of match
      `k - 1` (from `i` for the first). */
  lemma {:induction false} SpanSearched(s: string, i: nat, open: string, close: string, k: nat)
    requires |open| > 0 && k < |Spans(s, i, open, close)|
    ensures var ms := Spans(s, i, open, close);
            NextMatch(s, Resume(ms, k, i, close), open, close) == Some(ms[k])
    decreases k
  {
    var ms := Spans(s, i, open, close);
    var sp := NextMatch(s, i, open, close).value;
    var j := sp.to + |close|;
    var rest := Spans(s, j, open, close);
    assert ms == [sp] + rest;
    if k > 0 {
      assert ms[k] == rest[k - 1];
      assert Resume(ms, k, i, close) == Resume(rest, k - 1, j, close) by {
        if k > 1 {
          assert ms[k - 1] == rest[k - 2];
        }
      }
      SpanSearched(s, j, open, close, k - 1);
    }
  }

  /** The search from the end of the last match finds nothing. */
  lemma {:induction false} SpansEnd(s: string, i: nat, open: string, close: string)
    requires |open| > 0
    ensures var ms := Spans(s, i, open, close);
            NextMatch(s, Resume(ms, |ms|, i, close), open, close).None?
    decreases |s| - i
  {
    var ms := Spans(s, i, open, close);
    var m := NextMatch(s, i, open, close);
    if m.Some? {
      var j := m.value.to + |close|;
      var rest := Spans(s, j, open, close);
      assert ms == [m.value] + rest;
      assert Resume(ms, |ms|, i, close) == Resume(rest, |rest|, j, close) by {
        if |rest| > 0 {
          assert ms[|ms| - 1] == rest[|rest| - 1];
        }
      }
      SpansEnd(s, j, open, close);
    }
  }

  /** The matches of `Spans` are the leftmost, shortest, non-overlapping
      ones, left to right: match `k` is the leftmost match from the end of
      match `k - 1` (from `i` for the first), ending at the first `close`
      after its `open`, and after the last match the pattern matches
      nowhere. */
  lemma SpansLeftmost(s: string, i: nat, open: string, close: string)
    requires |open| > 0
    ensures var ms := Spans(s, i, open, close);
            forall k :: 0 <= k < |ms| ==> Leftmost(s, open, close, Resume(ms, k, i, close), ms[k])
    ensures var ms := Spans(s, i, open, close);
            NoMatchFrom(s, open, close, Resume(ms, |ms|, i, close))
  {
    var ms := Spans(s, i, open, close);
    forall k | 0 <= k < |ms|
      ensures Leftmost(s, open, close, Resume(ms, k, i, close), ms[k])
    {
      SpanSearched(s, i, open, close, k);
      NextMatchLeftmost(s, Resume(ms, k, i, close), open, close);
    }
    SpansEnd(s, i, open, close);
    NextMatchLeftmost(s, Resume(ms, |ms|, i, close), open, close);
  }

  /** `s` has no newline between positions `a` and `b`. */
  predicate NoNewline(s: string, a: nat, b: nat)
  {
    forall p :: a <= p < b && p < |s| ==> s[p] != '\n'
  }

  /** Match `k` spans no newline between its `open` and its `close`. */
  lemma SpanOnOneLine(s: string, i: nat, open: string, close: string, k: nat)
    requires |open| > 0 && k < |Spans(s, i, open, close)|
    ensures var sp := Spans(s, i, open, close)[k];
            NoNewline(s, sp.from + |open|, sp.to)
  {
    var sp := Spans(s, i, open, close)[k];
    SpanSearched(s, i, open, close, k);
    ScanCloseOnOneLine(s, sp.from + |open|, close);
  }

  /** No capture of the matches holds a newline. */
  lemma CapturesOnOneLine(s: string, open: string, close: string)
    requires |open| > 0
    ensures forall k, j ::
              (0 <= k < |Captures(s, Spans(s, 0, open, close), open)| &&
               0 <= j < |Captures(s, Spans(s, 0, open, close), open)[k]|) ==>
              Captures(s, Spans(s, 0, open, close), open)[k][j] != '\n'
  {
    var ms := Spans(s, 0, open, close);
    var cs := Captures(s, ms, open);
    forall k, j | 0 <= k < |cs| && 0 <= j < |cs[k]|
      ensures cs[k][j] != '\n'
    {
      SpanOnOneLine(s, 0, open, close, k);
      CaptureAt(s, ms, open, k);
      assert cs[k][j] == s[ms[k].from + |open| + j];
    }
  }

  const ROW_OPEN := "<tr>"
  const ROW_CLOSE := "</tr>"
  const HEADER_OPEN := "<td>"
  const CELL_OPEN := "<td align=\"right\">"
  const CELL_CLOSE := "</td>"

  /** `re.findall(r'<tr>(.*?)</tr>', table)`. */
  function Rows(table: string): seq<string>
  {
    FindAll(table, ROW_OPEN, ROW_CLOSE)
  }

  /** `re.findall(r'<td align="right">(.*?)</td>', row)`. */
  function Cells(row: string): seq<string>
  {
    FindAll(row, CELL_OPEN, CELL_CLOSE)
  }

  /** `[float(col.strip()) for col in cols]`, `None` when a conversion
      raises. */
  function Convert(toFloat: string -> Option<real>, cols: seq<string>): (r: Option<seq<real>>)
    ensures r.Some? ==> |r.value| == |cols|
  {
    if |cols| == 0 then Some([])
    else
      var x := toFloat(Text.Strip(cols[0]));
      var rest := Convert(toFloat, cols[1..]);
      if x.None? || rest.None? then None else Some([x.value] + rest.value)
  }

  /** The conversion succeeds exactly when every stripped cell converts, and
      then it holds their values in order. */
  lemma {:induction false} ConvertMeaning(toFloat: string -> Option<real>, cols: seq<string>)
    ensures Convert(toFloat, cols).Some? <==> forall k :: 0 <= k < |cols| ==> toFloat(Text.Strip(cols[k])).Some?
    ensures Convert(toFloat, cols).Some? ==>
              var r := Convert(toFloat, cols).value;
              |r| == |cols| && forall k :: 0 <= k < |cols| ==> toFloat(Text.Strip(cols[k])) == Some(r[k])
  {
    if |cols| > 0 {
      ConvertMeaning(toFloat, cols[1..]);
      assert forall k :: 1 <= k < |cols| ==> cols[k] == cols[1..][k - 1];
    }
  }

  /** The answer to the request: none (a `RequestException`), or a status
      code and the text of the page's table. */
  datatype Response = Failed | Received(status: int, table: string)

  /** How `retrieve_table` ends: returning None, raising the IndexError of
      `rows[0]` or the ValueError of `float()`, or returning the data. */
  datatype Retrieval = NoData | IndexError | ValueError | Data(rows: seq<seq<real>>)

  /** `retrieve_table` from the response on: the rows of the table, the
      header cells of the first row (only printed by the code, returned
      here), and the converted cells of every later row. */
  method RetrieveTable(toFloat: string -> Option<real>, response: Response)
    returns (r: Retrieval, header: seq<string>)
    ensures r == NoData <==> response.Failed? || response.status != 200
    ensures r == IndexError <==> response.Received? && response.status == 200 && |Rows(response.table)| == 0
    ensures r == ValueError <==>
              && response.Received? && response.status == 200
              && exists k :: 1 <= k < |Rows(response.table)| && Convert(toFloat, Cells(Rows(response.table)[k])).None?
    ensures r.Data? ==> var rows := Rows(response.table);
              && |rows| > 0 && header == FindAll(rows[0], HEADER_OPEN, CELL_CLOSE)
              && |r.rows| == |rows| - 1
              && forall k :: 1 <= k < |rows| ==> Convert(toFloat, Cells(rows[k])) == Some(r.rows[k - 1])
  {
    header := [];
    if response.Failed? || response.status != 200 {
      return NoData, header;
    }
    var rows := Rows(response.table);
    if |rows| == 0 {
      return IndexError, header;
    }
    header := FindAll(rows[0], HEADER_OPEN, CELL_CLOSE);
    var data: seq<seq<real>> := [];
    var i := 1;
    while i < |rows|
      invariant 1 <= i <= |rows|
      invariant |data| == i - 1
      invariant forall k :: 1 <= k < i ==> Convert(toFloat, Cells(rows[k])) == Some(data[k - 1])
    {
      var cols := Convert(toFloat, Cells(rows[i]));
      if cols.None? {
        return ValueError, header;
      }
      var next := data + [cols.value];
      forall k | 1 <= k < i + 1
        ensures Convert(toFloat, Cells(rows[k])) == Some(next[k - 1])
      {
        if k < i {
          assert next[k - 1] == data[k - 1];
        }
      }
      data := next;
      i := i + 1;
    }
    return Data(data), header;
  }
}
