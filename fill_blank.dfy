/**
 * The fill-in-the-blank player: the `*word*` marker scan that splits the
 * text into text parts and blanks, the pool of draggable words, the drop
 * map and the score.
 */
module FillBlank {
  import opened Wrappers
  import opened Strings

  datatype Blank = Blank(id: string, answer: string)

  datatype Part = TextPart(content: string) | BlankPart(blank: Blank)

  /** The id of the n-th blank: `blank-${n}`. */
  function BlankId(n: nat): string {
    "blank-" + Decimal(n)
  }

  // -----------------------------------------------------------------------
  // The marker scan. The pattern `\*([^*]+)\*` matches at a star whose next
  // star is not adjacent; the answer is everything between the two stars
  // and the scan resumes just after the closing star.

  /** The first star at or after `from`, or `|s|` if there is none. */
  function NextStar(s: string, from: nat): (k: nat)
    requires from <= |s|
    ensures from <= k <= |s|
    ensures k < |s| ==> s[k] == '*'
    decreases |s| - from
  {
    if from == |s| then |s| else if s[from] == '*' then from else NextStar(s, from + 1)
  }

  /** Nothing before the star found is a star. */
  lemma {:induction false} NextStarFirst(s: string, from: nat)
    requires from <= |s|
    ensures forall j :: from <= j < NextStar(s, from) ==> s[j] != '*'
    decreases |s| - from
  {
    if from < |s| && s[from] != '*' {
      NextStarFirst(s, from + 1);
    }
  }

  /** Stars at `open` and `close` with at least one character, and no star, between them. */
  predicate Marked(s: string, open: int, close: int) {
    0 <= open && open + 1 < close < |s| && s[open] == '*' && s[close] == '*'
    && forall j :: open < j < close ==> s[j] != '*'
  }

  datatype Match = Match(open: nat, close: nat)

  /** No match opens at a position in [from, to). */
  ghost predicate NoMatchIn(s: string, from: nat, to: nat) {
    forall i, k :: from <= i < to ==> !Marked(s, i, k)
  }

  /** The closing star of a marker is the first star after its opening one. */
  lemma MarkedClose(s: string, open: nat, close: nat)
    requires Marked(s, open, close)
    ensures close == NextStar(s, open + 1)
  {
    NextStarFirst(s, open + 1);
  }

  /** A position that fails the test above opens no marker. */
  lemma NoMarkerAt(s: string, from: nat)
    requires from < |s|
    requires !(s[from] == '*' && from + 1 < NextStar(s, from + 1) < |s|)
    ensures forall k :: !Marked(s, from, k)
  {
    NextStarFirst(s, from + 1);
  }

  /** The leftmost match starting at or after `from`, as the global regex finds it. */
  function FindMatch(s: string, from: nat): (r: Option<Match>)
    requires from <= |s|
    ensures r.Some? ==> from <= r.value.open && r.value.open + 1 < r.value.close < |s|
    ensures r.Some? ==> s[r.value.open] == '*' && s[r.value.close] == '*'
    decreases |s| - from
  {
    if from == |s| then None
    else if s[from] == '*' && from + 1 < NextStar(s, from + 1) < |s| then
      Some(Match(from, NextStar(s, from + 1)))
    else
      FindMatch(s, from + 1)
  }

  /** A match found spans a marker: no star lies inside it. */
  lemma {:induction false} FindMatchMarked(s: string, from: nat)
    requires from <= |s| && FindMatch(s, from).Some?
    ensures Marked(s, FindMatch(s, from).value.open, FindMatch(s, from).value.close)
    decreases |s| - from
  {
    if !(s[from] == '*' && from + 1 < NextStar(s, from + 1) < |s|) {
      FindMatchMarked(s, from + 1);
    } else {
      NextStarFirst(s, from + 1);
    }
  }

  /** The match found is the leftmost one, and no match is missed. */
  lemma {:induction false} FindMatchLeftmost(s: string, from: nat)
    requires from <= |s|
    ensures FindMatch(s, from).Some? ==> NoMatchIn(s, from, FindMatch(s, from).value.open)
    ensures FindMatch(s, from).None? ==> NoMatchIn(s, from, |s|)
    decreases |s| - from
  {
    if from < |s| && !(s[from] == '*' && from + 1 < NextStar(s, from + 1) < |s|) {
      NoMarkerAt(s, from);
      FindMatchLeftmost(s, from + 1);
    }
  }

  /** The text before a match, if any. */
  function Lead(s: string, last: nat, open: nat): seq<Part>
    requires last <= open <= |s|
  {
    if open > last then [TextPart(s[last..open])] else []
  }

  /** The parts the scan produces from `last` on, numbering blanks from `n`. */
  function ParseFrom(s: string, last: nat, n: nat): seq<Part>
    requires last <= |s|
    decreases |s| - last
  {
    match FindMatch(s, last)
    case None => if last < |s| then [TextPart(s[last..])] else []
    case Some(m) =>
      Lead(s, last, m.open) + [BlankPart(Blank(BlankId(n), s[m.open + 1..m.close]))] + ParseFrom(s, m.close + 1, n + 1)
  }

  function Parse(s: string): seq<Part> {
    ParseFrom(s, 0, 0)
  }

  /** The blanks among the parts, in order. */
  function BlanksOf(parts: seq<Part>): seq<Blank> {
    if parts == [] then []
    else (if parts[0].BlankPart? then [parts[0].blank] else []) + BlanksOf(parts[1..])
  }

  lemma {:induction false} BlanksOfAppend(a: seq<Part>, b: seq<Part>)
    ensures BlanksOf(a + b) == BlanksOf(a) + BlanksOf(b)
  {
    if a != [] {
      assert (a + b)[0] == a[0];
      assert (a + b)[1..] == a[1..] + b;
      BlanksOfAppend(a[1..], b);
    } else {
      assert a + b == b;
    }
  }

  /** One pass of the scan loop keeps what is already collected plus what is left to scan. */
  lemma ScanStep(s: string, before: seq<Part>, parts: seq<Part>, last: nat, n: nat, m: Match, next: nat)
    requires last <= |s| && FindMatch(s, last) == Some(m) && next == m.close + 1
    requires before + ParseFrom(s, last, n) == Parse(s)
    requires parts == before + Lead(s, last, m.open) + [BlankPart(Blank(BlankId(n), s[m.open + 1..m.close]))]
    ensures parts + ParseFrom(s, next, n + 1) == Parse(s)
    ensures BlanksOf(parts) == BlanksOf(before) + [Blank(BlankId(n), s[m.open + 1..m.close])]
  {
    var lead := Lead(s, last, m.open);
    var blank := [BlankPart(Blank(BlankId(n), s[m.open + 1..m.close]))];
    var rest := ParseFrom(s, m.close + 1, n + 1);
    ParseFromStep(s, last, n, m);
    Associate(before, lead, blank, rest);
    BlanksOfStep(before, lead, blank);
  }

  lemma Associate(a: seq<Part>, b: seq<Part>, c: seq<Part>, d: seq<Part>)
    ensures a + (b + c + d) == (a + b + c) + d
  {
  }

  lemma BlanksOfStep(before: seq<Part>, lead: seq<Part>, blank: seq<Part>)
    requires forall i :: 0 <= i < |lead| ==> lead[i].TextPart?
    requires |blank| == 1 && blank[0].BlankPart?
    ensures BlanksOf(before + lead + blank) == BlanksOf(before) + [blank[0].blank]
  {
    BlanksOfAppend(before + lead, blank);
    BlanksOfAppend(before, lead);
    NoBlanksInText(lead);
    assert BlanksOf(blank) == [blank[0].blank] + BlanksOf([]);
  }

  lemma {:induction false} NoBlanksInText(parts: seq<Part>)
    requires forall i :: 0 <= i < |parts| ==> parts[i].TextPart?
    ensures BlanksOf(parts) == []
  {
    if parts != [] {
      NoBlanksInText(parts[1..]);
    }
  }

  /**
   * The scan as the player runs it: a loop that appends to `parts` and
   * `blanks` and moves `lastIndex` past each match.
   */
  method ParseBlanks(text: string) returns (parts: seq<Part>, blanks: seq<Blank>)
    ensures parts == Parse(text)
    ensures blanks == BlanksOf(parts)
  {
    parts := [];
    blanks := [];
    var lastIndex: nat := 0;
    var blankIndex: nat := 0;
    var found := FindMatch(text, lastIndex);
    while found.Some?
      invariant lastIndex <= |text|
      invariant found == FindMatch(text, lastIndex)
      invariant parts + ParseFrom(text, lastIndex, blankIndex) == Parse(text)
      invariant blanks == BlanksOf(parts)
      decreases |text| - lastIndex
    {
      var m := found.value;
      ghost var before := parts;
      if m.open > lastIndex {
        parts := parts + [TextPart(text[lastIndex..m.open])];
      }
      assert parts == before + Lead(text, lastIndex, m.open);
      var blank := Blank(BlankId(blankIndex), text[m.open + 1..m.close]);
      parts := parts + [BlankPart(blank)];
      blanks := blanks + [blank];
      ghost var previous := lastIndex;
      lastIndex := m.close + 1;
      ScanStep(text, before, parts, previous, blankIndex, m, lastIndex);
      blankIndex := blankIndex + 1;
      found := FindMatch(text, lastIndex);
    }
    ScanEnd(text, parts, lastIndex, blankIndex);
    if lastIndex < |text| {
      parts := parts + [TextPart(text[lastIndex..])];
    }
  }

  /** After the last match, what is left of the text becomes the last part. */
  lemma ScanEnd(s: string, parts: seq<Part>, last: nat, n: nat)
    requires last <= |s| && FindMatch(s, last).None?
    ensures last < |s| ==> parts + ParseFrom(s, last, n) == parts + [TextPart(s[last..])]
    ensures last < |s| ==> BlanksOf(parts + [TextPart(s[last..])]) == BlanksOf(parts)
    ensures last == |s| ==> parts + ParseFrom(s, last, n) == parts
  {
    ParseFromEnd(s, last, n);
    BlanksOfAppend(parts, [TextPart(s[last..])]);
  }

  // -----------------------------------------------------------------------
  // What the scan guarantees.

  /** Text parts as they are, blanks written back as `*answer*`. */
  function Render(parts: seq<Part>): string {
    if parts == [] then ""
    else
      (match parts[0]
       case TextPart(c) => c
       case BlankPart(b) => "*" + b.answer + "*")
      + Render(parts[1..])
  }

  lemma {:induction false} RenderAppend(a: seq<Part>, b: seq<Part>)
    ensures Render(a + b) == Render(a) + Render(b)
  {
    if a != [] {
      assert (a + b)[0] == a[0];
      assert (a + b)[1..] == a[1..] + b;
      RenderAppend(a[1..], b);
    } else {
      assert a + b == b;
    }
  }

  /** The text around a match: before it, the starred answer, after it. */
  lemma Decompose(s: string, last: nat, open: nat, close: nat)
    requires last <= open < close < |s| && s[open] == '*' && s[close] == '*'
    ensures s[last..] == s[last..open] + ("*" + s[open + 1..close] + "*") + s[close + 1..]
  {
    assert s[last..] == s[last..open] + [s[open]] + s[open + 1..close] + [s[close]] + s[close + 1..];
  }

  /** One step of the scan, when a match is found. */
  lemma ParseFromStep(s: string, last: nat, n: nat, m: Match)
    requires last <= |s| && FindMatch(s, last) == Some(m)
    ensures ParseFrom(s, last, n)
         == Lead(s, last, m.open) + [BlankPart(Blank(BlankId(n), s[m.open + 1..m.close]))] + ParseFrom(s, m.close + 1, n + 1)
  {
  }

  lemma RenderLead(s: string, last: nat, open: nat)
    requires last <= open <= |s|
    ensures Render(Lead(s, last, open)) == s[last..open]
  {
    if open > last {
      assert Render(Lead(s, last, open)) == s[last..open] + Render([]);
    }
  }

  lemma RenderStep(lead: seq<Part>, b: Blank, rest: seq<Part>)
    ensures Render(lead + [BlankPart(b)] + rest) == Render(lead) + ("*" + b.answer + "*") + Render(rest)
  {
    RenderAppend(lead + [BlankPart(b)], rest);
    RenderAppend(lead, [BlankPart(b)]);
    assert Render([BlankPart(b)]) == "*" + b.answer + "*" + Render([]);
  }

  /** The last step of the scan, when no match is left. */
  lemma ParseFromEnd(s: string, last: nat, n: nat)
    requires last <= |s| && FindMatch(s, last).None?
    ensures ParseFrom(s, last, n) == if last < |s| then [TextPart(s[last..])] else []
  {
  }

  lemma {:induction false} RenderParseFrom(s: string, last: nat, n: nat)
    requires last <= |s|
    ensures Render(ParseFrom(s, last, n)) == s[last..]
    decreases |s| - last
  {
    var found := FindMatch(s, last);
    if found.None? {
      ParseFromEnd(s, last, n);
      if last < |s| {
        assert Render([TextPart(s[last..])]) == s[last..] + Render([]);
      }
    } else {
      var m := found.value;
      var b := Blank(BlankId(n), s[m.open + 1..m.close]);
      var lead := Lead(s, last, m.open);
      var rest := ParseFrom(s, m.close + 1, n + 1);
      calc {
        Render(ParseFrom(s, last, n));
        { ParseFromStep(s, last, n, m); }
        Render(lead + [BlankPart(b)] + rest);
        { RenderStep(lead, b, rest); }
        Render(lead) + ("*" + b.answer + "*") + Render(rest);
        { RenderLead(s, last, m.open); RenderParseFrom(s, m.close + 1, n + 1); }
        s[last..m.open] + ("*" + s[m.open + 1..m.close] + "*") + s[m.close + 1..];
        { Decompose(s, last, m.open, m.close); }
        s[last..];
      }
    }
  }

  /** Writing every blank back between stars reproduces the text exactly. */
  lemma RoundTrip(s: string)
    ensures Render(Parse(s)) == s
  {
    RenderParseFrom(s, 0, 0);
  }

  /** A text part is non-empty; a blank's answer is non-empty and star-free. */
  predicate PartOk(p: Part) {
    match p
    case TextPart(c) => c != ""
    case BlankPart(b) => b.answer != "" && '*' !in b.answer
  }

  predicate NoAdjacentText(parts: seq<Part>) {
    forall i :: 0 <= i < |parts| - 1 ==> !(parts[i].TextPart? && parts[i + 1].TextPart?)
  }

  /** The blanks carry the ids `blank-n`, `blank-(n+1)`, … in order. */
  predicate NumberedFrom(blanks: seq<Blank>, n: nat) {
    forall j :: 0 <= j < |blanks| ==> blanks[j].id == BlankId(n + j)
  }

  /** Every part well-formed, no two text parts side by side, blanks numbered from `n`. */
  predicate WellShaped(parts: seq<Part>, n: nat) {
    && (forall i :: 0 <= i < |parts| ==> PartOk(parts[i]))
    && NoAdjacentText(parts)
    && NumberedFrom(BlanksOf(parts), n)
  }

  /** The answer between the stars of a marker is non-empty and star-free. */
  lemma AnswerOfMarker(s: string, open: nat, close: nat)
    requires Marked(s, open, close)
    ensures s[open + 1..close] != "" && '*' !in s[open + 1..close]
  {
    var answer := s[open + 1..close];
    assert forall j :: 0 <= j < |answer| ==> answer[j] == s[open + 1 + j];
  }

  lemma PartsOkCons(lead: seq<Part>, p: Part, rest: seq<Part>)
    requires forall i :: 0 <= i < |lead| ==> PartOk(lead[i])
    requires PartOk(p) && forall i :: 0 <= i < |rest| ==> PartOk(rest[i])
    ensures forall i :: 0 <= i < |lead + [p] + rest| ==> PartOk((lead + [p] + rest)[i])
  {
  }

  lemma NoAdjacentCons(lead: seq<Part>, p: Part, rest: seq<Part>)
    requires |lead| <= 1 && p.BlankPart? && NoAdjacentText(rest)
    ensures NoAdjacentText(lead + [p] + rest)
  {
    var parts := lead + [p] + rest;
    forall i | 0 <= i < |parts| - 1
      ensures !(parts[i].TextPart? && parts[i + 1].TextPart?)
    {
      if i > |lead| {
        assert parts[i] == rest[i - |lead| - 1] && parts[i + 1] == rest[i - |lead|];
      }
    }
  }

  lemma NumberedCons(b: Blank, rest: seq<Blank>, n: nat)
    requires b.id == BlankId(n) && NumberedFrom(rest, n + 1)
    ensures NumberedFrom([b] + rest, n)
  {
    forall j | 1 <= j < |rest| + 1
      ensures ([b] + rest)[j].id == BlankId(n + j)
    {
      assert ([b] + rest)[j] == rest[j - 1];
    }
  }

  /** A well-shaped tail stays well-shaped behind a non-empty lead and a good blank. */
  lemma ShapeCons(lead: seq<Part>, b: Blank, rest: seq<Part>, n: nat)
    requires lead == [] || (|lead| == 1 && lead[0].TextPart? && lead[0].content != "")
    requires b.answer != "" && '*' !in b.answer && b.id == BlankId(n)
    requires WellShaped(rest, n + 1)
    ensures WellShaped(lead + [BlankPart(b)] + rest, n)
  {
    PartsOkCons(lead, BlankPart(b), rest);
    NoAdjacentCons(lead, BlankPart(b), rest);
    BlanksOfStep([], lead, [BlankPart(b)]);
    assert [] + lead == lead;
    BlanksOfAppend(lead + [BlankPart(b)], rest);
    NumberedCons(b, BlanksOf(rest), n);
  }

  lemma {:induction false} ParseFromShape(s: string, last: nat, n: nat)
    requires last <= |s|
    ensures WellShaped(ParseFrom(s, last, n), n)
    decreases |s| - last
  {
    var found := FindMatch(s, last);
    if found.None? {
      ParseFromEnd(s, last, n);
    } else {
      ParseFromShape(s, found.value.close + 1, n + 1);
      StepShape(s, last, n, found.value);
    }
  }

  /** One scan step keeps the parts well-shaped when the rest of the scan is. */
  lemma StepShape(s: string, last: nat, n: nat, m: Match)
    requires last <= |s| && FindMatch(s, last) == Some(m)
    requires WellShaped(ParseFrom(s, m.close + 1, n + 1), n + 1)
    ensures WellShaped(ParseFrom(s, last, n), n)
  {
    ParseFromStep(s, last, n, m);
    FindMatchMarked(s, last);
    var answer := s[m.open + 1..m.close];
    AnswerOfMarker(s, m.open, m.close);
    var lead := Lead(s, last, m.open);
    assert lead == [] || (|lead| == 1 && lead[0].TextPart? && lead[0].content != "");
    ShapeCons(lead, Blank(BlankId(n), answer), ParseFrom(s, m.close + 1, n + 1), n);
  }

  /**
   * The scan's parts: no empty text part, no two text parts side by side,
   * every answer non-empty and star-free, blanks numbered `blank-0`,
   * `blank-1`, … in order.
   */
  lemma ParseShape(s: string)
    ensures WellShaped(Parse(s), 0)
  {
    ParseFromShape(s, 0, 0);
  }

  predicate HasMarker(s: string) {
    exists i, k :: 0 <= i < k < |s| && Marked(s, i, k)
  }

  /** Without a `*…*` pair there are no blanks and at most one text part; with one there is a blank. */
  lemma NoMarkerNoBlanks(s: string)
    ensures !HasMarker(s) ==> |Parse(s)| <= 1 && BlanksOf(Parse(s)) == []
    ensures HasMarker(s) ==> BlanksOf(Parse(s)) != []
  {
    var found := FindMatch(s, 0);
    FindMatchLeftmost(s, 0);
    if found.None? {
      ParseFromEnd(s, 0, 0);
      NoBlanksInText(Parse(s));
    } else {
      var m := found.value;
      var b := Blank(BlankId(0), s[m.open + 1..m.close]);
      var rest := ParseFrom(s, m.close + 1, 1);
      FindMatchMarked(s, 0);
      assert Marked(s, m.open, m.close);
      ParseFromStep(s, 0, 0, m);
      BlanksOfStep([], Lead(s, 0, m.open), [BlankPart(b)]);
      assert [] + Lead(s, 0, m.open) == Lead(s, 0, m.open);
      BlanksOfAppend(Lead(s, 0, m.open) + [BlankPart(b)], rest);
    }
  }

  // -----------------------------------------------------------------------
  // The pool of draggable words.

  datatype Item = Item(id: string, text: string)

  function ItemId(answer: string, i: nat): string {
    "item-" + answer + "-" + Decimal(i)
  }

  function DistractorId(i: nat): string {
    "distractor-" + Decimal(i)
  }

  /** One item per blank, then one per distractor, before the shuffle. */
  function Pool(blanks: seq<Blank>, distractors: seq<string>): (items: seq<Item>)
    ensures |items| == |blanks| + |distractors|
    ensures forall i :: 0 <= i < |blanks| ==> items[i].text == blanks[i].answer
    ensures forall i :: 0 <= i < |distractors| ==> items[|blanks| + i].text == distractors[i]
  {
    seq(|blanks|, i requires 0 <= i < |blanks| => Item(ItemId(blanks[i].answer, i), blanks[i].answer))
    + seq(|distractors|, i requires 0 <= i < |distractors| => Item(DistractorId(i), distractors[i]))
  }

  predicate DistinctIds(items: seq<Item>) {
    forall i, j :: 0 <= i < j < |items| ==> items[i].id != items[j].id
  }

  /** A string ending in "-" and a dash-free tail determines that tail. */
  lemma DashSuffix(a: string, d1: string, b: string, d2: string)
    requires '-' !in d1 && '-' !in d2
    requires a + "-" + d1 == b + "-" + d2
    ensures d1 == d2
  {
    var x := a + "-" + d1;
    assert x[|x| - |d1| - 1] == '-';
    assert x[|x| - |d2| - 1] == '-';
    assert forall t :: |x| - |d1| <= t < |x| ==> x[t] == d1[t - (|x| - |d1|)];
    assert forall t :: |x| - |d2| <= t < |x| ==> x[t] == d2[t - (|x| - |d2|)];
    assert |d1| == |d2|;
    assert d1 == x[|x| - |d1|..] == d2;
  }

  lemma DecimalDashFree(n: nat)
    ensures '-' !in Decimal(n)
  {
    DecimalDigits(n);
  }

  /** Item ids and distractor ids never collide, whatever the answers hold. */
  lemma PoolIdsDistinct(blanks: seq<Blank>, distractors: seq<string>)
    ensures DistinctIds(Pool(blanks, distractors))
  {
    var p := Pool(blanks, distractors);
    forall i, j | 0 <= i < j < |p|
      ensures p[i].id != p[j].id
    {
      if j < |blanks| {
        DecimalDashFree(i);
        DecimalDashFree(j);
        if p[i].id == p[j].id {
          assert "item-" + blanks[i].answer + "-" + Decimal(i) == p[i].id;
          assert ("item-" + blanks[i].answer) + "-" + Decimal(i) == ("item-" + blanks[j].answer) + "-" + Decimal(j);
          DashSuffix("item-" + blanks[i].answer, Decimal(i), "item-" + blanks[j].answer, Decimal(j));
          DecimalInjective(i, j);
        }
      } else if i < |blanks| {
        assert p[i].id[0] == 'i' && p[j].id[0] == 'd';
      } else {
        if p[i].id == p[j].id {
          assert p[i].id == "distractor-" + Decimal(i - |blanks|);
          assert Decimal(i - |blanks|) == p[i].id[11..] == p[j].id[11..] == Decimal(j - |blanks|);
          DecimalInjective(i - |blanks|, j - |blanks|);
        }
      }
    }
  }

  /** `draggables.find(i => i.id === id)`. */
  function Find(items: seq<Item>, id: string): (r: Option<Item>)
    ensures r.Some? ==> r.value in items && r.value.id == id
    ensures r.None? <==> forall x :: x in items ==> x.id != id
  {
    if items == [] then None
    else if items[0].id == id then Some(items[0])
    else Find(items[1..], id)
  }

  /** With distinct ids the shuffle does not change which item an id finds. */
  lemma FindIgnoresShuffle(pool: seq<Item>, shuffled: seq<Item>, id: string)
    requires DistinctIds(pool)
    requires multiset(shuffled) == multiset(pool)
    ensures Find(shuffled, id) == Find(pool, id)
  {
    assert forall x :: x in shuffled <==> x in pool by {
      forall x ensures x in shuffled <==> x in pool {
        assert x in shuffled <==> x in multiset(shuffled);
        assert x in pool <==> x in multiset(pool);
      }
    }
    if Find(pool, id).Some? {
      var y := Find(shuffled, id).value;
      var x := Find(pool, id).value;
      var i :| 0 <= i < |pool| && pool[i] == x;
      var j :| 0 <= j < |pool| && pool[j] == y;
    }
  }

  // -----------------------------------------------------------------------
  // Scoring.

  predicate Correct(blank: Blank, dropped: map<string, Item>) {
    blank.id in dropped && dropped[blank.id].text == blank.answer
  }

  /** The number of blanks holding a word whose text is the answer. */
  function Score(blanks: seq<Blank>, dropped: map<string, Item>): (score: nat)
    ensures score <= |blanks|
  {
    if blanks == [] then 0
    else Score(blanks[..|blanks| - 1], dropped) + (if Correct(blanks[|blanks| - 1], dropped) then 1 else 0)
  }

  /** Full marks exactly when every blank holds its answer's text. */
  lemma {:induction false} FullScore(blanks: seq<Blank>, dropped: map<string, Item>)
    ensures Score(blanks, dropped) == |blanks| <==> forall i :: 0 <= i < |blanks| ==> Correct(blanks[i], dropped)
  {
    if blanks != [] {
      var init := blanks[..|blanks| - 1];
      FullScore(init, dropped);
      assert forall i :: 0 <= i < |init| ==> init[i] == blanks[i];
    }
  }

  /** No drops, no points. */
  lemma {:induction false} EmptyDropsScoreZero(blanks: seq<Blank>)
    ensures Score(blanks, map[]) == 0
  {
    if blanks != [] {
      EmptyDropsScoreZero(blanks[..|blanks| - 1]);
    }
  }

  /** Drops on ids that are not blanks do not change the score. */
  lemma {:induction false} ScoreIgnoresOtherKeys(blanks: seq<Blank>, dropped: map<string, Item>, key: string, item: Item)
    requires forall i :: 0 <= i < |blanks| ==> blanks[i].id != key
    ensures Score(blanks, dropped[key := item]) == Score(blanks, dropped)
  {
    if blanks != [] {
      ScoreIgnoresOtherKeys(blanks[..|blanks| - 1], dropped, key, item);
    }
  }

  // -----------------------------------------------------------------------
  // The player's state.

  class Session {
    const parts: seq<Part>
    const blanks: seq<Blank>
    /** The pool before the shuffle. */
    ghost const pool: seq<Item>
    /** The pool in the order the shuffle left it. */
    const draggables: seq<Item>
    var dropped: map<string, Item>
    var submitted: bool

    ghost predicate Valid()
      reads this
    {
      && blanks == BlanksOf(parts)
      && DistinctIds(pool)
      && multiset(draggables) == multiset(pool)
    }

    /**
     * Mounts the player on a text and its distractors (an absent list is
     * empty); `shuffled` is any reordering of the pool.
     */
    constructor(text: string, distractors: seq<string>, shuffled: seq<Item>)
      requires multiset(shuffled) == multiset(Pool(BlanksOf(Parse(text)), distractors))
      ensures parts == Parse(text) && blanks == BlanksOf(parts)
      ensures pool == Pool(blanks, distractors) && draggables == shuffled
      ensures dropped == map[] && !submitted
      ensures Valid()
    {
      var p, b := ParseBlanks(text);
      parts := p;
      blanks := b;
      pool := Pool(b, distractors);
      draggables := shuffled;
      dropped := map[];
      submitted := false;
      new;
      PoolIdsDistinct(b, distractors);
    }

    /** The item with this id has been dropped on some blank. */
    predicate IsDropped(id: string)
      reads this
    {
      exists key :: key in dropped && dropped[key].id == id
    }

    /** Dropping the dragged word on a target: only that target's entry changes. */
    method DragEnd(over: Option<string>, active: string)
      requires Valid()
      modifies this
      ensures Valid()
      ensures Find(draggables, active) == Find(pool, active)
      ensures over.Some? && Find(draggables, active).Some? ==>
                dropped == old(dropped)[over.value := Find(draggables, active).value]
      ensures !(over.Some? && Find(draggables, active).Some?) ==> dropped == old(dropped)
      ensures submitted == old(submitted)
    {
      FindIgnoresShuffle(pool, draggables, active);
      if over.Some? {
        var item := Find(draggables, active);
        if item.Some? {
          dropped := dropped[over.value := item.value];
        }
      }
    }

    /** "Check Answer" is shown before submitting and enabled once something is dropped. */
    predicate CanCheck()
      reads this
    {
      !submitted && |dropped| != 0
    }

    method Check()
      requires CanCheck()
      modifies this
      ensures submitted && dropped == old(dropped)
    {
      submitted := true;
    }

    /** "Try Again": every drop is cleared and the answers hide again. */
    method Reset()
      modifies this
      ensures dropped == map[] && !submitted
      ensures Score(blanks, dropped) == 0
      ensures forall id :: !IsDropped(id)
    {
      dropped := map[];
      submitted := false;
      EmptyDropsScoreZero(blanks);
    }

    /** The "Score: s / n" line: the count of correctly filled blanks. */
    function CurrentScore(): (score: nat)
      reads this
      ensures score == Score(blanks, dropped) && score <= |blanks|
      ensures score == |blanks| <==> forall i :: 0 <= i < |blanks| ==> Correct(blanks[i], dropped)
      ensures dropped == map[] ==> score == 0
    {
      FullScore(blanks, dropped);
      EmptyDropsScoreZero(blanks);
      Score(blanks, dropped)
    }
  }
}
