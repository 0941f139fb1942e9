/**
 * The topic registry: an append-only ledger of investigation topics that a
 * conversational agent adds to, resolves and queries through four tools.
 * A topic's identity is its zero-based position in the ledger.
 */
module Topics {
  import opened Wrappers
  import opened Text

  /** One investigation thread. */
  datatype TopicItem = TopicItem(description: string, asked: bool, conclusion: Option<string>)
  {
    /** Python's `bool(conclusion)`: an absent or empty conclusion leaves the topic open. */
    predicate Answered()
      ensures conclusion.None? ==> !Answered()
      ensures conclusion == Some("") ==> !Answered()
      ensures conclusion.Some? && conclusion.value != "" ==> Answered()
    {
      conclusion.Some? && conclusion.value != ""
    }
  }

  /** The item `add` appends. */
  function NewTopic(description: string): (t: TopicItem)
    ensures t.description == description
    ensures !t.asked && t.conclusion == None && !t.Answered()
  {
    TopicItem(description, false, None)
  }

  /** The item `mark_answered` leaves behind: the conclusion replaces any earlier one. */
  function Concluded(t: TopicItem, conclusion: string): (u: TopicItem)
    ensures u.description == t.description && u.asked && u.conclusion == Some(conclusion)
    ensures u.Answered() <==> conclusion != ""
  {
    t.(asked := true, conclusion := Some(conclusion))
  }

  /** The ledger invariant: every answered topic has been asked about. */
  predicate AnsweredImpliesAsked(items: seq<TopicItem>) {
    forall i :: 0 <= i < |items| ==> items[i].Answered() ==> items[i].asked
  }

  /** All topics up to (not including) `n` are answered. */
  predicate AnsweredBefore(items: seq<TopicItem>, n: int)
    requires n <= |items|
  {
    forall j :: 0 <= j < n ==> items[j].Answered()
  }

  class TopicList {
    var items: seq<TopicItem>

    ghost predicate Valid()
      reads this
    {
      AnsweredImpliesAsked(items)
    }

    /** The registry starts empty. */
    constructor ()
      ensures items == [] && Valid()
    {
      items := [];
    }

    /** Appends a fresh, unasked, unanswered topic; its index is the old length. */
    method Add(description: string) returns (index: nat)
      modifies this
      ensures index == |old(items)|
      ensures items == old(items) + [NewTopic(description)]
      ensures old(Valid()) ==> Valid()
    {
      items := items + [NewTopic(description)];
      index := |items| - 1;
    }

    /**
     * Records `conclusion` for the topic at `index` and marks it asked, or
     * reports `false` and changes nothing when the index is out of range.
     */
    method MarkAnswered(index: int, conclusion: string) returns (ok: bool)
      modifies this
      ensures ok <==> 0 <= index < |old(items)|
      ensures !ok ==> items == old(items)
      ensures ok ==> items == old(items)[index := Concluded(old(items)[index], conclusion)]
      ensures old(Valid()) ==> Valid()
    {
      if index < 0 || index >= |items| {
        return false;
      }
      items := items[index := Concluded(items[index], conclusion)];
      return true;
    }

    /** The first topic that is not answered, or `None` when every topic is. */
    method NextUnansweredIndex() returns (r: Option<nat>)
      ensures r.None? <==> AnsweredBefore(items, |items|)
      ensures r.Some? ==> r.value < |items| && !items[r.value].Answered() && AnsweredBefore(items, r.value)
    {
      var i := 0;
      while i < |items|
        invariant 0 <= i <= |items|
        invariant AnsweredBefore(items, i)
      {
        if !items[i].Answered() {
          return Some(i);
        }
        i := i + 1;
      }
      return None;
    }

    /** One status line per topic, in index order. */
    method SummaryLines() returns (lines: seq<string>)
      ensures |lines| == |items|
      ensures forall i :: 0 <= i < |items| ==> lines[i] == SummaryLine(i, items[i])
    {
      lines := [];
      var i := 0;
      while i < |items|
        invariant 0 <= i <= |items|
        invariant |lines| == i
        invariant forall j :: 0 <= j < i ==> lines[j] == SummaryLine(j, items[j])
      {
        lines := lines + [SummaryLine(i, items[i])];
        i := i + 1;
      }
    }
  }

  // ---------------------------------------------------------------------
  // Rendering of one topic, and the reader that recovers its header.
  // ---------------------------------------------------------------------

  function StatusWord(answered: bool): string {
    if answered then "ANSWERED" else "OPEN"
  }

  function AskedWord(asked: bool): string {
    if asked then "asked" else "not-asked"
  }

  /** `STATUS (asked|not-asked) :: ` */
  function FlagsText(answered: bool, asked: bool): string {
    StatusWord(answered) + " (" + AskedWord(asked) + ") :: "
  }

  /** The description, then the conclusion when the topic is answered. */
  function BodyText(t: TopicItem): string {
    t.description + (if t.Answered() then " | conclusion: " + t.conclusion.value else "")
  }

  /**
   * `[index] STATUS (asked|not-asked) :: description[ | conclusion: ...]`:
   * it opens with the bracketed index, and it is one line when the topic's
   * fields are.
   */
  function SummaryLine(index: nat, t: TopicItem): (line: string)
    ensures "[" + NatToDecimal(index) + "] " <= line
    ensures SingleLine(t) ==> '\n' !in line
  {
    var head := "[" + NatToDecimal(index) + "] ";
    var flags := FlagsText(t.Answered(), t.asked);
    var body := BodyText(t);
    LineShape(head, flags, body);
    head + flags + body
  }

  lemma LineShape(head: string, flags: string, body: string)
    ensures head <= head + flags + body
    ensures '\n' !in head && '\n' !in flags && '\n' !in body ==> '\n' !in head + flags + body
  {
    assert (head + flags + body)[..|head|] == head;
  }

  /** What the front of a status line tells about its topic. */
  datatype Header = Header(index: nat, answered: bool, asked: bool)

  /** The rest of `s` after `prefix`, when `s` starts with it. */
  function Consume(prefix: string, s: string): Option<string>
  {
    if prefix <= s then Some(s[|prefix|..]) else None
  }

  lemma ConsumeFront(prefix: string, rest: string)
    ensures Consume(prefix, prefix + rest) == Some(rest)
  {
    assert (prefix + rest)[..|prefix|] == prefix;
  }

  /** Reads one of two words at the front of `s`. */
  function ParseWord(s: string, yes: string, no: string): Option<(bool, string)>
  {
    match Consume(yes, s)
    case Some(rest) => Some((true, rest))
    case None =>
      match Consume(no, s)
      case Some(rest) => Some((false, rest))
      case None => None
  }

  /** Reads `STATUS (asked|not-asked) :: ` from the front of `s`. */
  function ParseFlags(s: string): Option<(bool, bool)>
  {
    match ParseWord(s, "ANSWERED", "OPEN")
    case None => None
    case Some((answered, r1)) =>
      match Consume(" (", r1)
      case None => None
      case Some(r2) =>
        match ParseWord(r2, "asked", "not-asked")
        case None => None
        case Some((asked, r3)) =>
          match Consume(") :: ", r3)
          case None => None
          case Some(_) => Some((answered, asked))
  }

  /** Reads `[index] STATUS (asked|not-asked) :: ` from the front of a line. */
  function ParseHeader(line: string): Option<Header>
  {
    match Consume("[", line)
    case None => None
    case Some(r1) =>
      var n := DigitPrefixLength(r1);
      if n == 0 then None
      else
        match Consume("] ", r1[n..])
        case None => None
        case Some(r2) =>
          match ParseFlags(r2)
          case None => None
          case Some((answered, asked)) => Some(Header(DecimalValue(r1[..n]), answered, asked))
  }

  lemma ParseWordFront(yes: string, no: string, rest: string)
    requires |yes| > 0 && |no| > 0 && yes[0] != no[0]
    ensures ParseWord(yes + rest, yes, no) == Some((true, rest))
    ensures ParseWord(no + rest, yes, no) == Some((false, rest))
  {
    ConsumeFront(yes, rest);
    ConsumeFront(no, rest);
    assert (no + rest)[0] == no[0];
  }

  lemma ParseFlagsFront(answered: bool, asked: bool, tail: string)
    ensures ParseFlags(FlagsText(answered, asked) + tail) == Some((answered, asked))
  {
    var r3 := ") :: " + tail;
    var r2 := AskedWord(asked) + r3;
    var r1 := " (" + r2;
    assert FlagsText(answered, asked) + tail == StatusWord(answered) + r1;
    ParseWordFront("ANSWERED", "OPEN", r1);
    ConsumeFront(" (", r2);
    ParseWordFront("asked", "not-asked", r3);
    ConsumeFront(") :: ", tail);
  }

  lemma Regroup(a: string, b: string, c: string, d: string, e: string)
    ensures a + b + c + d + e == a + (b + (c + (d + e)))
  {
  }

  lemma HeaderFront(index: nat, answered: bool, asked: bool, body: string)
    ensures ParseHeader("[" + NatToDecimal(index) + "] " + FlagsText(answered, asked) + body)
            == Some(Header(index, answered, asked))
  {
    var d := NatToDecimal(index);
    var f := FlagsText(answered, asked);
    var flags := f + body;
    var after := "] " + flags;
    var r1 := d + after;
    Regroup("[", d, "] ", f, body);
    ConsumeFront("[", r1);
    DigitPrefixOfDigits(d, after);
    assert r1[..|d|] == d;
    assert r1[|d|..] == after;
    ConsumeFront("] ", flags);
    ParseFlagsFront(answered, asked, body);
    DecimalRoundTrip(index);
  }

  /** Each status line can be read back: it names its index, its status and whether it was asked. */
  lemma SummaryLineHeader(index: nat, t: TopicItem)
    ensures ParseHeader(SummaryLine(index, t)) == Some(Header(index, t.Answered(), t.asked))
  {
    HeaderFront(index, t.Answered(), t.asked, BodyText(t));
  }

  /** A freshly added topic is listed as open and not asked, with no conclusion. */
  lemma NewTopicLine(index: nat, description: string)
    ensures SummaryLine(index, NewTopic(description))
            == "[" + NatToDecimal(index) + "] OPEN (not-asked) :: " + description
  {
  }

  /**
   * The whole line in each case: an open topic's line stops at its description
   * (whether or not it was asked), an answered topic's line adds its conclusion.
   */
  lemma SummaryLineCases(index: nat, t: TopicItem)
    ensures !t.Answered() ==>
      SummaryLine(index, t) == "[" + NatToDecimal(index) + "] " + "OPEN" + " (" + AskedWord(t.asked) + ") :: "
                               + t.description
    ensures t.Answered() ==>
      SummaryLine(index, t) == "[" + NatToDecimal(index) + "] " + "ANSWERED" + " (" + AskedWord(t.asked) + ") :: "
                               + t.description + " | conclusion: " + t.conclusion.value
  {
  }

  /** Neither field holds a line break. */
  predicate SingleLine(t: TopicItem) {
    '\n' !in t.description && (t.conclusion.Some? ==> '\n' !in t.conclusion.value)
  }

  // ---------------------------------------------------------------------
  // The four tools, acting on the one registry shared by the whole process.
  // ---------------------------------------------------------------------

  const NoTopicsMessage := "No topics registered yet."

  /** The text `get_topics_summary` returns for the given status lines. */
  function TopicsSummary(lines: seq<string>): (summary: string)
    ensures |lines| == 0 ==> summary == NoTopicsMessage
    ensures |lines| > 0 ==> lines[0] <= summary
  {
    if |lines| == 0 then NoTopicsMessage else JoinLines(lines)
  }

  /** A summary of break-free lines splits back into exactly those lines. */
  lemma TopicsSummarySplits(lines: seq<string>)
    requires |lines| > 0
    requires forall i :: 0 <= i < |lines| ==> '\n' !in lines[i]
    ensures SplitLines(TopicsSummary(lines)) == lines
  {
    SplitJoinRoundTrip(lines);
  }

  method AddTopic(topics: TopicList, description: string) returns (index: int)
    modifies topics
    ensures index == |old(topics.items)|
    ensures topics.items == old(topics.items) + [NewTopic(description)]
    ensures old(topics.Valid()) ==> topics.Valid()
  {
    index := topics.Add(description);
  }

  method MarkTopicAnswered(topics: TopicList, index: int, conclusion: string) returns (ok: bool)
    modifies topics
    ensures ok <==> 0 <= index < |old(topics.items)|
    ensures !ok ==> topics.items == old(topics.items)
    ensures ok ==> topics.items == old(topics.items)[index := Concluded(old(topics.items)[index], conclusion)]
    ensures old(topics.Valid()) ==> topics.Valid()
  {
    ok := topics.MarkAnswered(index, conclusion);
  }

  /** The first open topic's index, or -1 when there is none. */
  method NextUnansweredTopic(topics: TopicList) returns (index: int)
    ensures index == -1 <==> AnsweredBefore(topics.items, |topics.items|)
    ensures index != -1 ==> 0 <= index < |topics.items| && !topics.items[index].Answered()
    ensures index != -1 ==> AnsweredBefore(topics.items, index)
  {
    var r := topics.NextUnansweredIndex();
    index := if r.None? then -1 else r.value;
  }

  /**
   * The placeholder for an empty registry; otherwise the status lines joined
   * by line breaks, which split back into one line per topic when no field
   * holds a line break.
   */
  method GetTopicsSummary(topics: TopicList) returns (summary: string)
    ensures |topics.items| == 0 ==> summary == NoTopicsMessage
    ensures |topics.items| > 0 && (forall i :: 0 <= i < |topics.items| ==> SingleLine(topics.items[i])) ==>
              |SplitLines(summary)| == |topics.items| &&
              forall i :: 0 <= i < |topics.items| ==> SplitLines(summary)[i] == SummaryLine(i, topics.items[i])
  {
    var lines := topics.SummaryLines();
    summary := TopicsSummary(lines);
    if |lines| > 0 && forall i :: 0 <= i < |lines| ==> SingleLine(topics.items[i]) {
      TopicsSummarySplits(lines);
    }
  }

  // ---------------------------------------------------------------------
  // Client scenarios that mirror the registry's unit tests, and one more
  // for the empty-conclusion and overwrite behaviour.
  // ---------------------------------------------------------------------

  /** Two topics, the first resolved: indices, next open topic and the rendered lines. */
  method BasicFlowScenario()
  {
    var pl := new TopicList();
    var next := pl.NextUnansweredIndex();
    assert next == None;
    var lines := pl.SummaryLines();
    assert lines == [];

    var idx0 := pl.Add("Database connection times out randomly");
    var idx1 := pl.Add("Deployment pipeline fails intermittently");
    assert idx0 == 0 && idx1 == 1 && |pl.items| == 2;

    next := pl.NextUnansweredIndex();
    assert !pl.items[0].Answered();
    assert next == Some(0);

    var ok := pl.MarkAnswered(idx0, "Root cause: connection pool exhaustion");
    assert ok;
    assert pl.items[0].asked && pl.items[0].Answered();
    assert pl.items[0].conclusion == Some("Root cause: connection pool exhaustion");

    next := pl.NextUnansweredIndex();
    assert !pl.items[1].Answered();
    assert next == Some(1);

    lines := pl.SummaryLines();
    assert |lines| == 2;
    SummaryLineHeader(0, pl.items[0]);
    assert ParseHeader(lines[0]) == Some(Header(0, true, true));
    SummaryLineCases(0, pl.items[0]);
    assert pl.items[0].description == "Database connection times out randomly";
    assert lines[0] == "[" + NatToDecimal(0) + "] " + "ANSWERED" + " (" + AskedWord(true) + ") :: "
                       + "Database connection times out randomly"
                       + " | conclusion: " + "Root cause: connection pool exhaustion";
    assert NatToDecimal(1) == "1";
    assert pl.items[1] == NewTopic("Deployment pipeline fails intermittently");
    NewTopicLine(1, "Deployment pipeline fails intermittently");
    assert lines[1] == "[" + "1" + "] OPEN (not-asked) :: " + "Deployment pipeline fails intermittently";
  }

  /** Out-of-range indices are refused and leave the only topic open. */
  method InvalidIndexScenario()
  {
    var pl := new TopicList();
    var _ := pl.Add("Some issue");
    assert |pl.items| == 1;
    var ok := pl.MarkAnswered(-1, "x");
    assert !ok;
    ok := pl.MarkAnswered(1, "y");
    assert !ok;
    assert !pl.items[0].Answered();
    var next := pl.NextUnansweredIndex();
    assert next == Some(0);
  }

  /** An empty conclusion marks the topic asked but leaves it open; a later conclusion replaces it. */
  method EmptyConclusionScenario()
  {
    var pl := new TopicList();
    var i := pl.Add("Flaky test");
    var ok := pl.MarkAnswered(i, "");
    assert ok && pl.items[0].asked && !pl.items[0].Answered();
    var next := pl.NextUnansweredIndex();
    assert next == Some(0);
    ok := pl.MarkAnswered(i, "first");
    ok := pl.MarkAnswered(i, "second");
    assert pl.items[0].conclusion == Some("second");
    next := pl.NextUnansweredIndex();
    assert next == None;
  }
}
