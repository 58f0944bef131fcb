/**
 * The frontmatter decoder of admin/build_data.js (`parseFrontmatter`).
 *
 * A document is split by the pattern /^---\s*\n([\s\S]*?)\n---\s*\n/ into a
 * header and a body; the header is then read line by line by a small state
 * machine (the current key, the block-scalar buffer and the block-scalar
 * flag) that writes into a flat key/value mapping.
 */
module Frontmatter {
  import opened Wrappers
  import opened Text

  /** A decoded header value. Booleans are absent: `true`/`false` end up as numbers. */
  datatype Value = Str(s: string) | Num(n: int) | List(items: seq<string>)

  type Data = map<string, Value>

  /** The decoded header and the body that follows it. */
  datatype Parsed = Parsed(data: Data, content: string)

  // ----- Splitting a document at its delimiter lines -----

  /**
   * Where the delimiter pattern matched: the header is `s[open..close]`,
   * `s[close..close + 4]` is "\n---" and the matched text ends at `end`.
   */
  datatype Match = Match(open: nat, close: nat, end: nat)

  /** The end of the maximal whitespace run that starts at `i`. */
  function SpaceRunEnd(s: string, i: nat): (j: nat)
    requires i <= |s|
    ensures i <= j <= |s|
    ensures AllSpace(s[i..j])
    ensures j == |s| || !IsSpace(s[j])
    decreases |s| - i
  {
    if i == |s| || !IsSpace(s[i]) then i
    else
      var j := SpaceRunEnd(s, i + 1);
      assert s[i..j] == [s[i]] + s[i + 1..j];
      j
  }

  /** A whitespace run reaches at least as far as any all-whitespace stretch from its start. */
  lemma {:induction false} SpaceRunCovers(s: string, i: nat, j: nat)
    requires i <= j <= |s| && AllSpace(s[i..j])
    ensures j <= SpaceRunEnd(s, i)
    decreases j - i
  {
    if i < j {
      assert IsSpace(s[i..j][0]);
      assert s[i + 1..j] == s[i..j][1..];
      SpaceRunCovers(s, i + 1, j);
    }
  }

  /** The largest `q` in `(lo, p]` with a newline at `q - 1`: a greedy `\s*` backing off to a `\n`. */
  function NewlineBack(s: string, lo: nat, p: nat): (q: Option<nat>)
    requires lo <= p <= |s|
    ensures q.Some? ==> lo < q.value <= p && s[q.value - 1] == '\n'
    ensures q.Some? ==> forall m :: q.value <= m < p ==> s[m] != '\n'
    ensures q.None? ==> forall m :: lo <= m < p ==> s[m] != '\n'
    decreases p
  {
    if p == lo then None
    else if s[p - 1] == '\n' then Some(p)
    else NewlineBack(s, lo, p - 1)
  }

  /** `s[o - 1]` is the newline that ends the opening delimiter line. */
  predicate OpeningEnd(s: string, o: nat) {
    4 <= o <= |s| && s[..3] == "---" && s[o - 1] == '\n' && AllSpace(s[3..o])
  }

  /** A closing delimiter line starts at `c`: a newline, `---`, whitespace, a newline. */
  ghost predicate ClosingAt(s: string, c: nat) {
    c + 4 <= |s| && s[c..c + 4] == "\n---" && NewlineAfterSpaces(s, c + 4)
  }

  /** From `lo`, whitespace runs on to a newline. */
  ghost predicate NewlineAfterSpaces(s: string, lo: nat) {
    exists q: nat :: SpacesToNewline(s, lo, q)
  }

  /** `s[lo..q]` is whitespace and ends with a newline. */
  predicate SpacesToNewline(s: string, lo: nat, q: nat) {
    lo < q <= |s| && s[q - 1] == '\n' && AllSpace(s[lo..q])
  }

  /** Where the match ends if the closing delimiter line starts at `c`. */
  function CloseAt(s: string, c: nat): (e: Option<nat>)
    ensures e.Some? ==> c + 4 < e.value <= |s| && s[c..c + 4] == "\n---"
    ensures e.Some? ==> s[e.value - 1] == '\n' && AllSpace(s[c + 4..e.value])
    ensures e.Some? <==> ClosingAt(s, c)
  {
    if c + 4 <= |s| && s[c..c + 4] == "\n---" then
      var run := SpaceRunEnd(s, c + 4);
      var e := NewlineBack(s, c + 4, run);
      assert e.Some? ==> AllSpace(s[c + 4..e.value]) && ClosingAt(s, c) by {
        if e.Some? {
          AllSpaceSlice(s, c + 4, e.value, run);
          assert SpacesToNewline(s, c + 4, e.value);
        }
      }
      assert ClosingAt(s, c) ==> e.Some? by {
        if ClosingAt(s, c) {
          var q: nat :| SpacesToNewline(s, c + 4, q);
          SpaceRunCovers(s, c + 4, q);
          assert s[q - 1] == '\n' && c + 4 <= q - 1 < run;
        }
      }
      e
    else None
  }

  /** The lazy `([\s\S]*?)`: the first closing line at or after `c`. */
  function CloseSearch(s: string, o: nat, c: nat): (r: Option<Match>)
    requires o <= c <= |s|
    ensures r.Some? ==> r.value.open == o && c <= r.value.close && CloseAt(s, r.value.close) == Some(r.value.end)
    ensures r.Some? ==> forall d :: c <= d < r.value.close ==> !ClosingAt(s, d)
    ensures r.None? ==> forall d :: c <= d <= |s| ==> !ClosingAt(s, d)
    decreases |s| - c
  {
    var e := CloseAt(s, c);
    if e.Some? then Some(Match(o, c, e.value))
    else if c == |s| then None
    else CloseSearch(s, o, c + 1)
  }

  /** The greedy opening `\s*\n`: opening ends `p`, `p - 1`, ... are tried in turn. */
  function OpenSearch(s: string, p: nat): (r: Option<Match>)
    requires 3 <= p <= |s|
    requires s[..3] == "---" && AllSpace(s[3..p])
    ensures r.Some? ==> OpeningEnd(s, r.value.open) && r.value.open <= p
    ensures r.Some? ==> r.value.open <= r.value.close && CloseAt(s, r.value.close) == Some(r.value.end)
    ensures r.Some? ==> forall d :: r.value.open <= d < r.value.close ==> !ClosingAt(s, d)
    ensures r.None? ==> forall o: nat, c: nat :: OpeningEnd(s, o) && o <= p && o <= c <= |s| ==> !ClosingAt(s, c)
    decreases p
  {
    if p <= 3 then None
    else
      assert AllSpace(s[3..p - 1]) by { AllSpaceSlice(s, 3, p - 1, p); }
      if s[p - 1] == '\n' then
        assert OpeningEnd(s, p);
        var r := CloseSearch(s, p, p);
        if r.Some? then r else OpenSearch(s, p - 1)
      else OpenSearch(s, p - 1)
  }

  /** No closing delimiter line starts at or after `o`. */
  ghost predicate NoClosingFrom(s: string, o: nat) {
    forall c :: o <= c <= |s| ==> !ClosingAt(s, c)
  }

  /** Greedy: no opening longer than the one found, up to `p`, has a closing line after it. */
  lemma {:induction false} OpenSearchLongestFirst(s: string, p: nat)
    requires 3 <= p <= |s|
    requires s[..3] == "---" && AllSpace(s[3..p])
    ensures var r := OpenSearch(s, p);
      r.Some? ==> forall o: nat :: r.value.open < o <= p && OpeningEnd(s, o) ==> NoClosingFrom(s, o)
    decreases p
  {
    var r := OpenSearch(s, p);
    if r.Some? && r.value.open < p {
      OpenSearchStep(s, p);
      OpenSearchLongestFirst(s, p - 1);
      ExtendGreedy(s, r.value.open, p);
    }
  }

  /** A shorter opening is reported only when the one ending at `p` has no closing line after it. */
  lemma OpenSearchStep(s: string, p: nat)
    requires 3 <= p <= |s|
    requires s[..3] == "---" && AllSpace(s[3..p])
    requires OpenSearch(s, p).Some? && OpenSearch(s, p).value.open < p
    ensures 3 < p && AllSpace(s[3..p - 1]) && OpenSearch(s, p) == OpenSearch(s, p - 1)
    ensures s[p - 1] == '\n' ==> NoClosingFrom(s, p)
  {
    AllSpaceSlice(s, 3, p - 1, p);
  }

  /** One step of the greedy search: the opening that ends at `p` is covered too. */
  lemma ExtendGreedy(s: string, open: nat, p: nat)
    requires open < p <= |s|
    requires forall o: nat :: open < o <= p - 1 && OpeningEnd(s, o) ==> NoClosingFrom(s, o)
    requires s[p - 1] == '\n' ==> NoClosingFrom(s, p)
    ensures forall o: nat :: open < o <= p && OpeningEnd(s, o) ==> NoClosingFrom(s, o)
  {
  }

  /** The delimiter pattern, anchored at the start of the document. */
  function Split(s: string): (r: Option<Match>)
    ensures r.Some? ==> OpeningEnd(s, r.value.open) && r.value.open <= r.value.close
    ensures r.Some? ==> CloseAt(s, r.value.close) == Some(r.value.end)
    ensures r.Some? ==> forall d :: r.value.open <= d < r.value.close ==> !ClosingAt(s, d)
  {
    if |s| >= 3 && s[..3] == "---" then OpenSearch(s, SpaceRunEnd(s, 3)) else None
  }

  /**
   * The match a backtracking engine reports: no longer opening line has a
   * closing line anywhere after it, and no closing line starts inside the
   * header.
   */
  ghost predicate FirstMatch(s: string, m: Match) {
    && OpeningEnd(s, m.open) && m.open <= m.close && CloseAt(s, m.close) == Some(m.end)
    && (forall d :: m.open <= d < m.close ==> !ClosingAt(s, d))
    && (forall o: nat, c: nat :: m.open < o && OpeningEnd(s, o) && o <= c <= |s| ==> !ClosingAt(s, c))
  }

  /** `Split` returns that match. */
  lemma SplitIsFirstMatch(s: string, m: Match)
    requires Split(s) == Some(m)
    ensures FirstMatch(s, m)
  {
    var p := SpaceRunEnd(s, 3);
    OpenSearchLongestFirst(s, p);
    forall o: nat, c: nat | m.open < o && OpeningEnd(s, o) && o <= c <= |s|
      ensures !ClosingAt(s, c)
    {
      SpaceRunCovers(s, 3, o);
      assert NoClosingFrom(s, o);
    }
  }

  /** And there is only one such match, so `Split` pins down the header and the body. */
  lemma FirstMatchUnique(s: string, m1: Match, m2: Match)
    requires FirstMatch(s, m1) && FirstMatch(s, m2)
    ensures m1 == m2
  {
    assert ClosingAt(s, m1.close) && ClosingAt(s, m2.close);
    assert m1.open == m2.open;
    assert m1.close == m2.close;
  }

  /**
   * The pattern matches exactly when the document opens with a `---` line
   * (trailing whitespace allowed) and some later line is a closing `---`
   * line ended by a newline.
   */
  lemma SplitFindsDelimiters(s: string)
    ensures Split(s).Some? <==> exists o: nat, c: nat :: OpeningEnd(s, o) && o <= c && ClosingAt(s, c)
  {
    var r := Split(s);
    if r.Some? {
      assert SpacesToNewline(s, r.value.close + 4, r.value.end);
    }
    if o: nat, c: nat :| OpeningEnd(s, o) && o <= c && ClosingAt(s, c) {
      SpaceRunCovers(s, 3, o);
    }
  }

  // ----- Reading the header, one line at a time -----

  /** The length of the longest prefix of word characters. */
  function WordPrefix(s: string): (n: nat)
    ensures n <= |s|
    ensures forall i :: 0 <= i < n ==> IsWordChar(s[i])
    ensures n == |s| || !IsWordChar(s[n])
  {
    if s != [] && IsWordChar(s[0]) then 1 + WordPrefix(s[1..]) else 0
  }

  predicate NoLineTerminator(s: string) {
    forall i :: 0 <= i < |s| ==> !IsLineTerminator(s[i])
  }

  /** The pattern /^(\w+):\s*(.*)$/: the key and the value text after the spaces. */
  function KeyLine(line: string): Option<(string, string)> {
    var n := WordPrefix(line);
    if 0 < n < |line| && line[n] == ':' && NoLineTerminator(TrimStart(line[n + 1..])) then
      Some((line[..n], TrimStart(line[n + 1..])))
    else None
  }

  /** A list item line: once trimmed, it starts with "- ". */
  predicate IsItemLine(line: string) {
    StartsWith(Trim(line), "- ")
  }

  /** The item a list line contributes: the trimmed line less "- ", one quote stripped at each end. */
  function ItemOf(line: string): string
    requires IsItemLine(line)
  {
    StripQuotes(Trim(line)[2..])
  }

  /** The scalar a `key: value` line sets, `value` being trimmed and neither empty nor "|". */
  function Coerce(v: string): Value {
    if v == "true" then Num(1)
    else if v == "false" then Num(0)
    else if IsNumeral(v) then Num(NumeralValue(v))
    else Str(StripQuotes(v))
  }

  /** The scanner's state: `currentKey`, `currentValue`, `inMultiline` and the data written so far. */
  datatype Scan = Scan(key: Option<string>, buffer: string, inBlock: bool, data: Data)

  const Start: Scan := Scan(None, "", false, map[])

  /** A block-scalar continuation line joins the buffer after a newline, unless the buffer is empty. */
  function Extend(buffer: string, line: string): string {
    buffer + (if buffer != "" then "\n" else "") + TrimStart(line)
  }

  /** A `- item` line: the item is pushed only when the current key holds a list. */
  function PushItem(st: Scan, line: string): Scan
    requires IsItemLine(line)
  {
    if st.key.Some? && st.key.value in st.data && st.data[st.key.value].List? then
      var k := st.key.value;
      st.(data := st.data[k := List(st.data[k].items + [ItemOf(line)])])
    else st
  }

  /** A column-0 `key: raw` line: an open block scalar is stored first, then the key is set. */
  function SetKey(st: Scan, k: string, raw: string): Scan {
    var d := if st.inBlock && st.key.Some? then st.data[st.key.value := Str(Trim(st.buffer))] else st.data;
    var v := Trim(raw);
    if v == "|" then Scan(Some(k), "", true, d[k := List([])])
    else if v == "" then Scan(Some(k), st.buffer, false, d[k := List([])])
    else Scan(Some(k), st.buffer, false, d[k := Coerce(v)])
  }

  /** Any other line: a non-blank one continues an open block scalar, the rest are dropped. */
  function OtherLine(st: Scan, line: string): Scan {
    if st.inBlock && Trim(line) != "" then st.(buffer := Extend(st.buffer, line)) else st
  }

  /** One header line. */
  function Step(st: Scan, line: string): Scan {
    if IsItemLine(line) then PushItem(st, line)
    else match KeyLine(line)
      case Some((k, raw)) => SetKey(st, k, raw)
      case None => OtherLine(st, line)
  }

  /** The lines in order, from state `st`. */
  function ScanFrom(st: Scan, lines: seq<string>): Scan
    decreases |lines|
  {
    if lines == [] then st else ScanFrom(Step(st, lines[0]), lines[1..])
  }

  /** An open block scalar is stored, trimmed, under its key when the header ends. */
  function Finish(st: Scan): Data {
    if st.inBlock && st.key.Some? then st.data[st.key.value := Str(Trim(st.buffer))] else st.data
  }

  function Decode(lines: seq<string>): Data {
    Finish(ScanFrom(Start, lines))
  }

  /** What `parseFrontmatter` returns. */
  function FrontmatterOf(text: string): Parsed {
    match Split(text)
    case None => Parsed(map[], text)
    case Some(m) => Parsed(Decode(SplitLines(text[m.open..m.close])), Trim(text[m.end..]))
  }

  lemma {:induction false} ScanFromAppend(st: Scan, a: seq<string>, b: seq<string>)
    ensures ScanFrom(st, a + b) == ScanFrom(ScanFrom(st, a), b)
    decreases |a|
  {
    if a != [] {
      assert (a + b)[0] == a[0] && (a + b)[1..] == a[1..] + b;
      ScanFromAppend(Step(st, a[0]), a[1..], b);
    } else {
      assert a + b == b;
    }
  }

  lemma ScanFromSnoc(st: Scan, a: seq<string>, line: string)
    ensures ScanFrom(st, a + [line]) == Step(ScanFrom(st, a), line)
  {
    ScanFromAppend(st, a, [line]);
  }

  lemma ScanFromNext(st: Scan, lines: seq<string>, i: nat)
    requires i < |lines|
    ensures ScanFrom(st, lines[..i + 1]) == Step(ScanFrom(st, lines[..i]), lines[i])
  {
    assert lines[..i + 1] == lines[..i] + [lines[i]];
    ScanFromSnoc(st, lines[..i], lines[i]);
  }

  /** The decoder as written: the delimiter split, then the line loop over the header. */
  method ParseFrontmatter(content: string) returns (data: Data, body: string)
    ensures Parsed(data, body) == FrontmatterOf(content)
  {
    var m := Split(content);
    if m.None? {
      return map[], content;
    }
    data := DecodeLines(SplitLines(content[m.value.open..m.value.close]));
    body := Trim(content[m.value.end..]);
  }

  /** The `forEach` over the header lines, and the final save of an open block scalar. */
  method DecodeLines(lines: seq<string>) returns (data: Data)
    ensures data == Decode(lines)
  {
    var currentKey: Option<string> := None;
    var currentValue := "";
    var inMultiline := false;
    data := map[];
    var i := 0;
    while i < |lines|
      invariant 0 <= i <= |lines|
      invariant ScanFrom(Start, lines[..i]) == Scan(currentKey, currentValue, inMultiline, data)
    {
      ScanFromNext(Start, lines, i);
      currentKey, currentValue, inMultiline, data := VisitLine(currentKey, currentValue, inMultiline, data, lines[i]);
      i := i + 1;
    }
    assert lines[..|lines|] == lines;
    if inMultiline && currentKey.Some? {
      data := data[currentKey.value := Str(Trim(currentValue))];
    }
  }

  /** The callback the `forEach` runs on one line: it updates the scan state and writes into `data`. */
  method VisitLine(currentKey: Option<string>, currentValue: string, inMultiline: bool, data: Data, line: string)
    returns (currentKey': Option<string>, currentValue': string, inMultiline': bool, data': Data)
    ensures Scan(currentKey', currentValue', inMultiline', data') == Step(Scan(currentKey, currentValue, inMultiline, data), line)
  {
    currentKey', currentValue', inMultiline', data' := currentKey, currentValue, inMultiline, data;
    if IsItemLine(line) {
      if currentKey'.Some? && currentKey'.value in data' && data'[currentKey'.value].List? {
        data' := data'[currentKey'.value := List(data'[currentKey'.value].items + [ItemOf(line)])];
      }
      return;
    }
    var kv := KeyLine(line);
    if kv.Some? {
      if inMultiline' && currentKey'.Some? {
        data' := data'[currentKey'.value := Str(Trim(currentValue'))];
      }
      var key := kv.value.0;
      currentKey' := Some(key);
      var value := Trim(kv.value.1);
      if value == "|" {
        inMultiline' := true;
        currentValue' := "";
        data' := data'[key := List([])];
        return;
      }
      if value == "" {
        data' := data'[key := List([])];
        inMultiline' := false;
        return;
      }
      data' := data'[key := Coerce(value)];
      inMultiline' := false;
      return;
    }
    if inMultiline' && Trim(line) != "" {
      currentValue' := currentValue' + (if currentValue' != "" then "\n" else "") + TrimStart(line);
    }
  }
}
