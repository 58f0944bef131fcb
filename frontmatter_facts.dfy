/**
 * What the frontmatter decoder promises: when a document has no header,
 * where the body starts, how scalars are coerced, how lists and block
 * scalars are assembled, and which keys end up in the data.
 */
module FrontmatterFacts {
  import opened Wrappers
  import opened Text
  import opened Frontmatter

  predicate IsKey(k: string) {
    k != [] && forall i :: 0 <= i < |k| ==> IsWordChar(k[i])
  }

  // ----- Splitting -----

  /** Without an opening and a closing delimiter line, there is no data and the text comes back untouched (not even trimmed). */
  lemma NoDelimitersNoData(s: string)
    requires !exists o: nat, c: nat :: OpeningEnd(s, o) && o <= c && ClosingAt(s, c)
    ensures FrontmatterOf(s) == Parsed(map[], s)
  {
    SplitFindsDelimiters(s);
  }

  /** A `\n---` starts at `c`. */
  predicate DashesAt(s: string, c: nat) {
    c + 4 <= |s| && s[c..c + 4] == "\n---"
  }

  /** A closing `---` on the last line, with no newline after it, is no closing line. */
  lemma ClosingDashesNeedNewline(s: string)
    requires forall c: nat :: DashesAt(s, c) ==> c + 4 == |s|
    ensures FrontmatterOf(s) == Parsed(map[], s)
  {
    forall o: nat, c: nat | OpeningEnd(s, o) && o <= c
      ensures !ClosingAt(s, c)
    {
      if ClosingAt(s, c) {
        assert DashesAt(s, c);
      }
    }
    NoDelimitersNoData(s);
  }

  /** Whitespace between `a` and `b` makes no difference to what trims to. */
  lemma TrimAfterSpaces(s: string, a: nat, b: nat)
    requires a <= b <= |s| && AllSpace(s[a..b])
    ensures Trim(s[a..]) == Trim(s[b..])
  {
    assert s[a..] == s[a..b] + s[b..];
    TrimSkipsSpace(s[a..b], s[b..]);
  }

  /** On a match, the body is everything after the closing `---`, trimmed at both ends. */
  lemma BodyFollowsClosingDashes(s: string, m: Match)
    requires Split(s) == Some(m)
    ensures FrontmatterOf(s).content == Trim(s[m.close + 4..])
  {
    MatchedContent(s, m);
    ClosingLineTrimsAt(s, m);
  }

  /** On a match, trimming from just after the closing dashes or from the end of the match agree. */
  lemma ClosingLineTrimsAt(s: string, m: Match)
    requires Split(s) == Some(m)
    ensures Trim(s[m.close + 4..]) == Trim(s[m.end..])
  {
    ClosingLineTrims(s, m.close, m.end);
  }

  /** The whitespace that ends a closing delimiter line is lost to trimming anyway. */
  lemma ClosingLineTrims(s: string, c: nat, e: nat)
    requires CloseAt(s, c) == Some(e)
    ensures Trim(s[c + 4..]) == Trim(s[e..])
  {
    TrimAfterSpaces(s, c + 4, e);
  }

  /** On a match, the body is the trimmed text after the whole match. */
  lemma MatchedContent(s: string, m: Match)
    requires Split(s) == Some(m)
    ensures FrontmatterOf(s).content == Trim(s[m.end..])
  {
  }

  // ----- Line shapes -----

  /** A trimmed line that does not start with whitespace starts with the line's own first character. */
  lemma TrimKeepsFirst(line: string)
    requires line != [] && !IsSpace(line[0])
    ensures Trim(line) != [] && Trim(line)[0] == line[0]
  {
    assert TrimStart(line) == line;
    assert !AllSpace(line);
    TrimEndShape(line);
  }

  /** `key:` followed by a value with no line break is a key line with that key. */
  lemma KeyLineOf(k: string, v: string)
    requires IsKey(k) && NoLineTerminator(v)
    ensures KeyLine(k + ":" + v) == Some((k, TrimStart(v)))
  {
    var line := k + ":" + v;
    assert line[|k|] == ':';
    assert WordPrefix(line) == |k|;
    assert line[..|k|] == k;
    assert line[|k| + 1..] == v;
    var t := TrimStart(v);
    TrimStartShape(v);
    assert NoLineTerminator(t) by {
      forall i | 0 <= i < |t| ensures !IsLineTerminator(t[i]) {
        assert t[i] == v[|v| - |t| + i];
      }
    }
  }

  /** Key lines start at column 0 with the key and a colon. */
  lemma KeyLineShape(line: string)
    requires KeyLine(line).Some?
    ensures var k := KeyLine(line).value.0;
      IsKey(k) && StartsWith(line, k + ":") && IsWordChar(line[0])
  {
    var n := WordPrefix(line);
    var k := line[..n];
    assert KeyLine(line).value.0 == k;
    assert IsKey(k) by {
      forall i | 0 <= i < |k| ensures IsWordChar(k[i]) {
        assert k[i] == line[i];
      }
    }
    KeyPrefix(line, n);
  }

  lemma KeyPrefix(line: string, n: nat)
    requires n < |line| && line[n] == ':'
    ensures StartsWith(line, line[..n] + ":")
  {
    assert line[..n + 1] == line[..n] + ":";
  }

  /** A line starting with a word character is no list item. */
  lemma WordStartNotItem(line: string)
    requires line != [] && IsWordChar(line[0])
    ensures !IsItemLine(line)
  {
    TrimKeepsFirst(line);
  }

  /** So a key line is read as a key line, never as an item. */
  lemma StepKeyLine(st: Scan, line: string, k: string, raw: string)
    requires KeyLine(line) == Some((k, raw))
    ensures Step(st, line) == SetKey(st, k, raw)
  {
    KeyLineShape(line);
    WordStartNotItem(line);
  }

  // ----- Scalars -----

  /** `true` and `false` become the numbers 1 and 0: the numeric test turns the booleans into numbers. */
  lemma BooleansBecomeNumbers()
    ensures Coerce("true") == Num(1) && Coerce("false") == Num(0)
  {
  }

  /** An integer written out decodes to that integer. */
  lemma IntegerScalar(n: int)
    ensures Coerce(Show(n)) == Num(n)
  {
    NumeralRoundTrip(n);
    var s := Show(n);
    assert s != "true" && s != "false" by {
      if n < 0 { assert s[0] == '-'; } else { assert IsDigit(s[0]); }
    }
  }

  /** A quoted numeral stays text: the quotes are stripped but no number is made. */
  lemma QuotedIntegerStaysText(n: int, q: char)
    requires IsQuote(q)
    ensures Coerce([q] + Show(n) + [q]) == Str(Show(n))
  {
    var s := [q] + Show(n) + [q];
    assert s[0] == q && !IsNumeral(s);
    StripQuotesUnwraps(q, Show(n), q);
  }

  /** Any other text has one leading and one trailing quote stripped, independently. */
  lemma TextScalar(v: string)
    requires v != "true" && v != "false" && !IsNumeral(v)
    ensures Coerce(v) == Str(StripQuotes(v))
    ensures |v| >= 2 && IsQuote(v[0]) && !IsQuote(v[|v| - 1]) ==> Coerce(v) == Str(v[1..])
    ensures |v| >= 2 && !IsQuote(v[0]) && IsQuote(v[|v| - 1]) ==> Coerce(v) == Str(v[..|v| - 1])
  {
  }

  /**
   * `k` holds its final value: it is stored, and while it is the current key
   * no block scalar is open and its value is no list that items could extend.
   */
  predicate Settled(st: Scan, k: string) {
    k in st.data && (st.key == Some(k) ==> !st.inBlock && !st.data[k].List?)
  }

  /** A line that is no key line for `k` leaves a settled `k` as it is. */
  lemma StepKeepsSettled(st: Scan, line: string, k: string)
    requires Settled(st, k) && k !in KeyOfLine(line)
    ensures Settled(Step(st, line), k) && Step(st, line).data[k] == st.data[k]
  {
    match KeyLine(line)
    case Some((k2, raw)) =>
      StepKeyLine(st, line, k2, raw);
    case None =>
  }

  lemma {:induction false} ScanKeepsSettled(st: Scan, lines: seq<string>, k: string)
    requires Settled(st, k)
    requires forall i :: 0 <= i < |lines| ==> k !in KeyOfLine(lines[i])
    ensures Settled(ScanFrom(st, lines), k) && ScanFrom(st, lines).data[k] == st.data[k]
    decreases |lines|
  {
    if lines != [] {
      StepKeepsSettled(st, lines[0], k);
      assert forall i :: 0 <= i < |lines[1..]| ==> lines[1..][i] == lines[i + 1];
      ScanKeepsSettled(Step(st, lines[0]), lines[1..], k);
    }
  }

  /**
   * A key line that sets `k` to a scalar decides the value of `k`, whatever
   * follows, as long as no later key line sets `k` again.
   */
  lemma LastAssignmentWins(pre: seq<string>, line: string, k: string, raw: string, post: seq<string>)
    requires KeyLine(line) == Some((k, raw)) && Trim(raw) != "|" && Trim(raw) != ""
    requires forall i :: 0 <= i < |post| ==> k !in KeyOfLine(post[i])
    ensures k in Decode(pre + [line] + post)
    ensures Decode(pre + [line] + post)[k] == Coerce(Trim(raw))
  {
    ScanFromSnoc(Start, pre, line);
    ScanFromAppend(Start, pre + [line], post);
    AssignmentRun(ScanFrom(Start, pre), line, k, raw, post);
  }

  /** The same, from any state: the key line, then the rest. */
  lemma AssignmentRun(st: Scan, line: string, k: string, raw: string, post: seq<string>)
    requires KeyLine(line) == Some((k, raw)) && Trim(raw) != "|" && Trim(raw) != ""
    requires forall i :: 0 <= i < |post| ==> k !in KeyOfLine(post[i])
    ensures var r := ScanFrom(Step(st, line), post); k in Finish(r) && Finish(r)[k] == Coerce(Trim(raw))
  {
    StepKeyLine(st, line, k, raw);
    ScalarKeySettles(st, k, raw);
    ScanKeepsSettled(Step(st, line), post, k);
    FinishSettled(ScanFrom(Step(st, line), post), k);
  }

  /** `key: value` with a scalar value settles `key` on that value. */
  lemma ScalarKeySettles(st: Scan, k: string, raw: string)
    requires Trim(raw) != "|" && Trim(raw) != ""
    ensures Settled(SetKey(st, k, raw), k) && SetKey(st, k, raw).data[k] == Coerce(Trim(raw))
  {
  }

  /** The end of the header leaves a settled key as it is. */
  lemma FinishSettled(st: Scan, k: string)
    requires Settled(st, k)
    ensures k in Finish(st) && Finish(st)[k] == st.data[k]
  {
  }

  // ----- Lists -----

  function ItemsOf(lines: seq<string>): seq<string>
    requires forall i :: 0 <= i < |lines| ==> IsItemLine(lines[i])
  {
    if lines == [] then [] else [ItemOf(lines[0])] + ItemsOf(lines[1..])
  }

  /** An item line under a key holding a list appends its item. */
  lemma StepItemLine(st: Scan, line: string)
    requires IsItemLine(line)
    requires st.key.Some? && st.key.value in st.data && st.data[st.key.value].List?
    ensures Step(st, line)
      == st.(data := st.data[st.key.value := List(st.data[st.key.value].items + [ItemOf(line)])])
  {
  }

  /** Item lines push their items, in order, onto the list the current key holds. */
  lemma {:induction false} ItemsAppend(st: Scan, lines: seq<string>)
    requires forall i :: 0 <= i < |lines| ==> IsItemLine(lines[i])
    requires st.key.Some? && st.key.value in st.data && st.data[st.key.value].List?
    ensures var k := st.key.value;
      ScanFrom(st, lines) == st.(data := st.data[k := List(st.data[k].items + ItemsOf(lines))])
    decreases |lines|
  {
    var k := st.key.value;
    var items := st.data[k].items;
    if lines == [] {
      assert items + [] == items;
      MapSame(st.data, k);
    } else {
      var x := ItemOf(lines[0]);
      var next := Step(st, lines[0]);
      StepItemLine(st, lines[0]);
      ItemsAppend(next, lines[1..]);
      ConcatAssoc(items, [x], ItemsOf(lines[1..]));
      MapOverwrite(st.data, k, List(items + [x]), List(items + ItemsOf(lines)));
    }
  }

  /**
   * Sequence and map extensionality, kept apart from the scanner's
   * definitions so that they stay cheap to prove.
   */
  lemma ConcatAssoc<T>(a: seq<T>, b: seq<T>, c: seq<T>)
    ensures a + b + c == a + (b + c)
  {
  }

  lemma MapOverwrite<K, V>(m: map<K, V>, k: K, a: V, b: V)
    ensures m[k := a][k := b] == m[k := b]
  {
  }

  lemma MapSame<K, V>(m: map<K, V>, k: K)
    requires k in m
    ensures m[k := m[k]] == m
  {
  }

  /** `key:` with no value starts an empty list that the following `- item` lines fill. */
  lemma ListAfterEmptyKey(head: string, k: string, raw: string, lines: seq<string>)
    requires KeyLine(head) == Some((k, raw)) && Trim(raw) == ""
    requires forall i :: 0 <= i < |lines| ==> IsItemLine(lines[i])
    ensures Decode([head] + lines) == map[k := List(ItemsOf(lines))]
  {
    StepKeyLine(Start, head, k, raw);
    var st := Step(Start, head);
    assert st == Scan(Some(k), "", false, map[k := List([])]);
    ItemsAppend(st, lines);
    var items := ItemsOf(lines);
    assert [] + items == items;
    MapOverwrite(map[], k, List([]), List(items));
    ScanFromCons(Start, head, lines);
  }

  lemma ScanFromCons(st: Scan, line: string, lines: seq<string>)
    ensures ScanFrom(st, [line] + lines) == ScanFrom(Step(st, line), lines)
  {
    var all := [line] + lines;
    assert all[0] == line && all[1..] == lines;
  }

  /**
   * `key:` with no value collects the item lines right after it; once another
   * key line (or the end of the header) follows, no later line but one for
   * `key` changes it.
   */
  lemma EmptyKeyCollectsItems(pre: seq<string>, line: string, k: string, raw: string,
                              items: seq<string>, post: seq<string>)
    requires KeyLine(line) == Some((k, raw)) && Trim(raw) == ""
    requires forall i :: 0 <= i < |items| ==> IsItemLine(items[i])
    requires post == [] || KeyLine(post[0]).Some?
    requires forall i :: 0 <= i < |post| ==> k !in KeyOfLine(post[i])
    ensures k in Decode(pre + [line] + items + post)
    ensures Decode(pre + [line] + items + post)[k] == List(ItemsOf(items))
  {
    ScanFromSnoc(Start, pre, line);
    ScanFromAppend(Start, pre + [line], items);
    ScanFromAppend(Start, pre + [line] + items, post);
    var st := ScanFrom(Start, pre);
    EmptyKeyRun(st, line, k, raw, items, post);
    ScanFromAppend(Step(st, line), items, post);
  }

  /** The same, from any state: the key line, its items, then the rest. */
  lemma EmptyKeyRun(st: Scan, line: string, k: string, raw: string, items: seq<string>, post: seq<string>)
    requires KeyLine(line) == Some((k, raw)) && Trim(raw) == ""
    requires forall i :: 0 <= i < |items| ==> IsItemLine(items[i])
    requires post == [] || KeyLine(post[0]).Some?
    requires forall i :: 0 <= i < |post| ==> k !in KeyOfLine(post[i])
    ensures var r := ScanFrom(Step(st, line), items + post); k in Finish(r) && Finish(r)[k] == List(ItemsOf(items))
  {
    StepKeyLine(st, line, k, raw);
    var s1 := Step(st, line);
    ItemsAppend(s1, items);
    var s2 := ScanFrom(s1, items);
    assert s2.data[k] == List(ItemsOf(items)) by {
      assert [] + ItemsOf(items) == ItemsOf(items);
    }
    LeaveKey(s2, post, k);
    ScanFromAppend(s1, items, post);
  }

  /** The current key, outside a block, keeps its value once another key line or the end of the header follows. */
  lemma LeaveKey(st: Scan, post: seq<string>, k: string)
    requires st.key == Some(k) && !st.inBlock && k in st.data
    requires post == [] || KeyLine(post[0]).Some?
    requires forall i :: 0 <= i < |post| ==> k !in KeyOfLine(post[i])
    ensures var r := ScanFrom(st, post); k in Finish(r) && Finish(r)[k] == st.data[k]
  {
    if post != [] {
      var (k2, raw2) := KeyLine(post[0]).value;
      StepKeyLine(st, post[0], k2, raw2);
      assert forall i :: 0 <= i < |post[1..]| ==> post[1..][i] == post[i + 1];
      ScanKeepsSettled(Step(st, post[0]), post[1..], k);
    }
  }

  /** An item line is dropped unless the current key holds a list, say after a scalar or a block scalar has been stored. */
  lemma ItemsNeedAList(st: Scan, line: string)
    requires IsItemLine(line)
    requires st.key.None? || st.key.value !in st.data || !st.data[st.key.value].List?
    ensures Step(st, line) == st
  {
  }

  /** Item lines before any key line are dropped. */
  lemma {:induction false} ItemsWithoutKeyDropped(lines: seq<string>)
    requires forall i :: 0 <= i < |lines| ==> IsItemLine(lines[i])
    ensures ScanFrom(Start, lines) == Start
    ensures Decode(lines) == map[]
    decreases |lines|
  {
    if lines != [] {
      assert Step(Start, lines[0]) == Start;
      ItemsWithoutKeyDropped(lines[1..]);
    }
  }

  // ----- Block scalars -----

  /** A block-scalar line that is kept: neither blank nor a `- ` item. */
  predicate IsContinuation(line: string) {
    !IsItemLine(line) && Trim(line) != ""
  }

  /** The kept lines of a block scalar, leading whitespace removed. */
  function Continuations(lines: seq<string>): (r: seq<string>)
    ensures forall i :: 0 <= i < |r| ==> r[i] != []
  {
    if lines == [] then []
    else if IsContinuation(lines[0]) then
      NonBlankTrimStart(lines[0]);
      [TrimStart(lines[0])] + Continuations(lines[1..])
    else Continuations(lines[1..])
  }

  /** A buffer `b` with the pieces `ps` joined onto it, a newline before each piece but not at the start of an empty buffer. */
  function JoinOnto(b: string, ps: seq<string>): string {
    if ps == [] then b else if b == "" then JoinLines(ps) else b + "\n" + JoinLines(ps)
  }

  /** The scanner is in an open block scalar whose key holds the placeholder list. */
  predicate InBlock(st: Scan) {
    st.inBlock && st.key.Some? && st.key.value in st.data && st.data[st.key.value].List?
  }

  /** One line inside a block scalar that is no key line. */
  lemma StepInBlock(st: Scan, line: string)
    requires InBlock(st) && KeyLine(line).None?
    ensures var next := Step(st, line);
      InBlock(next) && next.key == st.key
      && next.buffer == (if IsContinuation(line) then JoinOnto(st.buffer, [TrimStart(line)]) else st.buffer)
      && next.data == st.data[st.key.value := next.data[st.key.value]]
  {
    var k := st.key.value;
    if IsItemLine(line) {
      MapOverwrite(st.data, k, st.data[k], Step(st, line).data[k]);
    } else {
      MapSame(st.data, k);
    }
  }

  lemma JoinOntoCons(b: string, p: string, rest: seq<string>)
    requires p != []
    ensures JoinOnto(JoinOnto(b, [p]), rest) == JoinOnto(b, [p] + rest)
  {
    if rest != [] {
      assert ([p] + rest)[0] == p && ([p] + rest)[1..] == rest;
    }
  }

  /**
   * Inside a block scalar, with no key line in sight, every kept line is
   * joined onto the buffer; items go to the placeholder list and blank
   * lines are dropped.
   */
  lemma {:induction false} BlockBody(st: Scan, lines: seq<string>)
    requires InBlock(st)
    requires forall i :: 0 <= i < |lines| ==> KeyLine(lines[i]).None?
    ensures var r := ScanFrom(st, lines);
      InBlock(r) && r.key == st.key && r.buffer == JoinOnto(st.buffer, Continuations(lines))
      && r.data == st.data[st.key.value := r.data[st.key.value]]
    decreases |lines|
  {
    var k := st.key.value;
    if lines == [] {
      MapSame(st.data, k);
    } else {
      var l := lines[0];
      var next := Step(st, l);
      StepInBlock(st, l);
      BlockBody(next, lines[1..]);
      var r := ScanFrom(next, lines[1..]);
      MapOverwrite(st.data, k, next.data[k], r.data[k]);
      if IsContinuation(l) {
        NonBlankTrimStart(l);
        JoinOntoCons(st.buffer, TrimStart(l), Continuations(lines[1..]));
      }
    }
  }

  /** The state right after a `key: |` line, from any state. */
  lemma BlockStart(st: Scan, head: string, k: string, raw: string)
    requires KeyLine(head) == Some((k, raw)) && Trim(raw) == "|"
    ensures var next := Step(st, head);
      next.inBlock && next.key == Some(k) && next.buffer == "" && k in next.data && next.data[k] == List([])
  {
    StepKeyLine(st, head, k, raw);
  }

  /**
   * A `key: |` line at the end of a header: its value is the kept lines
   * after it, leading whitespace removed, joined by newlines and trimmed.
   * Item lines inside it leave no trace.
   */
  lemma BlockScalarAtEnd(pre: seq<string>, head: string, k: string, raw: string, lines: seq<string>)
    requires KeyLine(head) == Some((k, raw)) && Trim(raw) == "|"
    requires forall i :: 0 <= i < |lines| ==> KeyLine(lines[i]).None?
    ensures k in Decode(pre + [head] + lines)
    ensures Decode(pre + [head] + lines)[k] == Str(Trim(JoinLines(Continuations(lines))))
  {
    var st := ScanFrom(Start, pre);
    ScanFromAppend(Start, pre + [head], lines);
    ScanFromSnoc(Start, pre, head);
    BlockStart(st, head, k, raw);
    BlockBody(Step(st, head), lines);
  }

  /** A block scalar ends at the next column-0 key line, which stores it before setting its own key. */
  lemma BlockScalarEndsAtKey(pre: seq<string>, head: string, k: string, raw: string, lines: seq<string>,
                             next: string, k2: string, raw2: string)
    requires KeyLine(head) == Some((k, raw)) && Trim(raw) == "|"
    requires forall i :: 0 <= i < |lines| ==> KeyLine(lines[i]).None?
    requires KeyLine(next) == Some((k2, raw2)) && k2 != k
    ensures var r := ScanFrom(Start, pre + [head] + lines + [next]);
      k in r.data && r.data[k] == Str(Trim(JoinLines(Continuations(lines))))
      && r.key == Some(k2) && r.inBlock == (Trim(raw2) == "|")
  {
    var st := ScanFrom(Start, pre);
    ScanFromSnoc(Start, pre + [head] + lines, next);
    ScanFromAppend(Start, pre + [head], lines);
    ScanFromSnoc(Start, pre, head);
    BlockStart(st, head, k, raw);
    BlockBody(Step(st, head), lines);
    var before := ScanFrom(Start, pre + [head] + lines);
    StepKeyLine(before, next, k2, raw2);
    SetKeyStoresBlock(before, k2, raw2);
  }

  /**
   * So a block scalar followed by more keys decodes to its text, as long as
   * no later key line is for the block's key.
   */
  lemma BlockScalarThenRest(pre: seq<string>, head: string, k: string, raw: string, lines: seq<string>,
                            next: string, k2: string, raw2: string, post: seq<string>)
    requires KeyLine(head) == Some((k, raw)) && Trim(raw) == "|"
    requires forall i :: 0 <= i < |lines| ==> KeyLine(lines[i]).None?
    requires KeyLine(next) == Some((k2, raw2)) && k2 != k
    requires forall i :: 0 <= i < |post| ==> k !in KeyOfLine(post[i])
    ensures k in Decode(pre + [head] + lines + [next] + post)
    ensures Decode(pre + [head] + lines + [next] + post)[k] == Str(Trim(JoinLines(Continuations(lines))))
  {
    BlockScalarEndsAtKey(pre, head, k, raw, lines, next, k2, raw2);
    ScanFromAppend(Start, pre + [head] + lines + [next], post);
    KeptThroughRest(ScanFrom(Start, pre + [head] + lines + [next]), k, post);
  }

  /** A stored key that is not the current one keeps its value through lines that do not set it. */
  lemma KeptThroughRest(st: Scan, k: string, post: seq<string>)
    requires k in st.data && st.key.Some? && st.key.value != k
    requires forall i :: 0 <= i < |post| ==> k !in KeyOfLine(post[i])
    ensures var r := ScanFrom(st, post); k in Finish(r) && Finish(r)[k] == st.data[k]
  {
    ScanKeepsSettled(st, post, k);
    FinishSettled(ScanFrom(st, post), k);
  }

  /** A key line met inside a block scalar first stores the trimmed buffer under the block's key. */
  lemma SetKeyStoresBlock(st: Scan, k: string, raw: string)
    requires InBlock(st) && k != st.key.value
    ensures var r := SetKey(st, k, raw);
      st.key.value in r.data && r.data[st.key.value] == Str(Trim(st.buffer))
      && r.key == Some(k) && r.inBlock == (Trim(raw) == "|")
  {
  }

  // ----- Keys -----

  /** The keys of the column-0 key lines among `lines`. */
  function KeysOf(lines: seq<string>): set<string> {
    if lines == [] then {}
    else KeysOf(lines[..|lines| - 1]) + KeyOfLine(lines[|lines| - 1])
  }

  /** The keys a line adds: its own, if it is a key line. */
  function KeyOfLine(line: string): set<string> {
    match KeyLine(line) case Some((k, _)) => {k} case None => {}
  }

  /** One line adds at most its own key, and the current key always has an entry. */
  lemma StepKeys(st: Scan, line: string)
    requires st.key.Some? ==> st.key.value in st.data
    ensures Step(st, line).data.Keys == st.data.Keys + KeyOfLine(line)
    ensures Step(st, line).key.Some? ==> Step(st, line).key.value in Step(st, line).data
  {
    match KeyLine(line)
    case Some((k, raw)) =>
      StepKeyLine(st, line, k, raw);
      SetKeyKeys(st, k, raw);
    case None =>
      if IsItemLine(line) {
        PushItemKeys(st, line);
      }
  }

  lemma SetKeyKeys(st: Scan, k: string, raw: string)
    requires st.key.Some? ==> st.key.value in st.data
    ensures SetKey(st, k, raw).data.Keys == st.data.Keys + {k}
    ensures SetKey(st, k, raw).key == Some(k)
  {
    var d := if st.inBlock && st.key.Some? then st.data[st.key.value := Str(Trim(st.buffer))] else st.data;
    if st.inBlock && st.key.Some? {
      assert st.data[st.key.value := Str(Trim(st.buffer))].Keys == st.data.Keys + {st.key.value};
    }
    assert d.Keys == st.data.Keys;
    assert d[k := List([])].Keys == d.Keys + {k};
    var v := Trim(raw);
    if v != "|" && v != "" {
      assert d[k := Coerce(v)].Keys == d.Keys + {k};
    }
  }

  lemma PushItemKeys(st: Scan, line: string)
    requires IsItemLine(line)
    ensures PushItem(st, line).data.Keys == st.data.Keys
    ensures PushItem(st, line).key == st.key
  {
    if st.key.Some? && st.key.value in st.data && st.data[st.key.value].List? {
      var k := st.key.value;
      assert st.data[k := List(st.data[k].items + [ItemOf(line)])].Keys == st.data.Keys + {k};
    }
  }

  lemma {:induction false} ScanKeys(lines: seq<string>)
    ensures ScanFrom(Start, lines).data.Keys == KeysOf(lines)
    ensures ScanFrom(Start, lines).key.Some? ==> ScanFrom(Start, lines).key.value in ScanFrom(Start, lines).data
    decreases |lines|
  {
    if lines != [] {
      var init := lines[..|lines| - 1];
      var last := lines[|lines| - 1];
      assert lines == init + [last];
      ScanFromSnoc(Start, init, last);
      ScanKeys(init);
      StepKeys(ScanFrom(Start, init), last);
    }
  }

  /** The decoded keys are exactly the keys of the column-0 key lines: nothing else defines a key. */
  lemma DecodedKeysAreKeyLines(lines: seq<string>)
    ensures Decode(lines).Keys == KeysOf(lines)
  {
    ScanKeys(lines);
  }

  /** Outside a block scalar, a line that is neither an item nor a column-0 key line changes nothing. */
  lemma OtherLinesIgnored(st: Scan, line: string)
    requires !st.inBlock && !IsItemLine(line) && KeyLine(line).None?
    ensures Step(st, line) == st
  {
  }

  /** In particular an indented `key: value` line outside a block scalar is ignored. */
  lemma IndentedKeyIgnored(st: Scan, line: string)
    requires !st.inBlock && !IsItemLine(line) && line != [] && IsSpace(line[0])
    ensures Step(st, line) == st
  {
    if KeyLine(line).Some? {
      KeyLineShape(line);
    }
  }
}
