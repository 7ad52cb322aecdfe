/** The message of a workflow node: `{input}` is substituted first, then every `{output:id}` in the
    result is replaced by what node `id` has produced so far. */
module MessageTemplate {
  import opened Wrappers
  import opened Texts
  import opened WorkflowGraph

  const INPUT := "{input}"
  const OUTPUT := "{output:"
  const MISSING := "[no output]"

  type Outputs = map<NodeId, string>

  // ---- finding and replacing ----

  predicate OccursAt(text: string, word: string, k: nat) {
    StandsAt(text, word, k)
  }

  ghost predicate Free(text: string, word: string) {
    forall k: nat :: !OccursAt(text, word, k)
  }

  function FindFrom(text: string, word: string, from: nat): (at: Option<nat>)
    ensures at.Some? ==> from <= at.value && at.value + |word| <= |text|
    decreases |text| - from
  {
    if OccursAt(text, word, from) then Some(from)
    else if from >= |text| then None
    else FindFrom(text, word, from + 1)
  }

  /** The leftmost occurrence at or after `from`. */
  lemma {:induction false} FindsLeftmost(text: string, word: string, from: nat)
    ensures var at := FindFrom(text, word, from);
      if at.Some?
      then OccursAt(text, word, at.value) && forall k: nat | from <= k < at.value :: !OccursAt(text, word, k)
      else forall k: nat | from <= k :: !OccursAt(text, word, k)
    decreases |text| - from
  {
    if !OccursAt(text, word, from) && from < |text| {
      FindsLeftmost(text, word, from + 1);
    }
  }

  function Find(text: string, word: string): (at: Option<nat>)
    ensures at.Some? ==> at.value + |word| <= |text|
  {
    FindFrom(text, word, 0)
  }

  function FindCharFrom(text: string, c: char, from: nat): (at: Option<nat>)
    requires from <= |text|
    ensures at.Some? ==> from <= at.value < |text|
    decreases |text| - from
  {
    if from == |text| then None
    else if text[from] == c then Some(from)
    else FindCharFrom(text, c, from + 1)
  }

  lemma {:induction false} FindsFirstChar(text: string, c: char, from: nat)
    requires from <= |text|
    ensures var at := FindCharFrom(text, c, from);
      if at.Some? then text[at.value] == c && c !in text[from..at.value] else c !in text[from..]
    decreases |text| - from
  {
    if from < |text| && text[from] != c {
      FindsFirstChar(text, c, from + 1);
      var at := FindCharFrom(text, c, from);
      var end := if at.Some? then at.value else |text|;
      assert text[from..end] == [text[from]] + text[from + 1..end];
    }
  }

  function FindChar(text: string, c: char): (at: Option<nat>)
    ensures at.Some? ==> at.value < |text|
  {
    FindCharFrom(text, c, 0)
  }

  function ReplaceAll(text: string, word: string, filler: string): string
    requires word != ""
    decreases |text|
  {
    match Find(text, word)
    case None => text
    case Some(k) => text[..k] + filler + ReplaceAll(text[k + |word|..], word, filler)
  }

  lemma FreeBefore(text: string, word: string, start: nat)
    requires word != "" && Find(text, word) == Some(start)
    ensures Free(text[..start], word)
    ensures text == text[..start] + word + text[start + |word|..]
  {
    FindsLeftmost(text, word, 0);
    forall k: nat | k + |word| <= start ensures !OccursAt(text[..start], word, k) {
      assert text[..start][k..k + |word|] == text[k..k + |word|];
      assert !OccursAt(text, word, k);
    }
    assert text[start..start + |word|] == word;
  }

  /** There are pieces that do not hold the word, which spell the text with the word between them and
      its replacement with the filler between them. */
  lemma {:induction false} ReplacesEvery(text: string, word: string, filler: string) returns (pieces: seq<string>)
    requires word != ""
    ensures pieces != [] && forall i | 0 <= i < |pieces| :: Free(pieces[i], word)
    ensures text == Spelled(pieces, Repeat(word, |pieces| - 1))
    ensures ReplaceAll(text, word, filler) == Spelled(pieces, Repeat(filler, |pieces| - 1))
    decreases |text|
  {
    FindsLeftmost(text, word, 0);
    match Find(text, word)
    case None =>
      pieces := [text];
    case Some(k) =>
      FreeBefore(text, word, k);
      var more := ReplacesEvery(text[k + |word|..], word, filler);
      OneMoreOccurrence(text[..k], word, more);
      OneMoreOccurrence(text[..k], filler, more);
      pieces := [text[..k]] + more;
  }

  lemma OneMoreOccurrence(first: string, gap: string, more: seq<string>)
    requires more != []
    ensures Spelled([first] + more, Repeat(gap, |more|)) == first + gap + Spelled(more, Repeat(gap, |more| - 1))
  {
    assert Repeat(gap, |more|) == [gap] + Repeat(gap, |more| - 1);
    SpelledMore(first, gap, more, Repeat(gap, |more| - 1));
  }

  // ---- placeholders ----

  /** A message as the scan reads it; a marker that is never closed stays text. */
  datatype Reading =
    | Plain(text: string)
    | Slot(before: string, id: string, rest: Reading)
    | Unclosed(before: string, rest: Reading)

  function Read(message: string, marker: string): Reading
    requires marker != ""
    decreases |message|
  {
    match Find(message, marker)
    case None => Plain(message)
    case Some(start) =>
      var after := message[start + |marker|..];
      match FindChar(after, '}')
      case None => Unclosed(message[..start], Read(after, marker))
      case Some(end) => Slot(message[..start], after[..end], Read(after[end + 1..], marker))
  }

  function Written(r: Reading, marker: string): string {
    match r
    case Plain(text) => text
    case Slot(before, id, rest) => before + marker + id + "}" + Written(rest, marker)
    case Unclosed(before, rest) => before + marker + Written(rest, marker)
  }

  function Produced(id: string, outputs: Outputs): string {
    if NodeId(id) in outputs then outputs[NodeId(id)] else MISSING
  }

  function Filled(r: Reading, marker: string, outputs: Outputs): string {
    match r
    case Plain(text) => text
    case Slot(before, id, rest) => before + Produced(id, outputs) + Filled(rest, marker, outputs)
    case Unclosed(before, rest) => before + marker + Filled(rest, marker, outputs)
  }

  function Mentions(r: Reading): set<NodeId> {
    match r
    case Plain(_) => {}
    case Slot(_, id, rest) => {NodeId(id)} + Mentions(rest)
    case Unclosed(_, rest) => Mentions(rest)
  }

  // ---- the reading is the right one ----

  lemma Rejoined(message: string, marker: string, start: nat)
    requires Find(message, marker) == Some(start)
    ensures message == message[..start] + marker + message[start + |marker|..]
  {
    FindsLeftmost(message, marker, 0);
    assert message[start..start + |marker|] == marker;
  }

  lemma RejoinedSlot(head: string, after: string, end: nat)
    requires FindChar(after, '}') == Some(end)
    ensures head + after == head + after[..end] + "}" + after[end + 1..]
  {
    FindsFirstChar(after, '}', 0);
    assert after == after[..end] + "}" + after[end + 1..];
  }

  /** The reading spells the message out again. */
  lemma {:induction false} ReadingSpellsMessage(message: string, marker: string)
    requires marker != ""
    ensures Written(Read(message, marker), marker) == message
    decreases |message|
  {
    match Read(message, marker)
    case Plain(_) =>
    case Slot(before, id, rest) =>
      var after := message[|before + marker|..];
      ReadingSpellsMessage(after[|id| + 1..], marker);
      Rejoined(message, marker, |before|);
      RejoinedSlot(before + marker, after, |id|);
    case Unclosed(before, rest) =>
      ReadingSpellsMessage(message[|before + marker|..], marker);
      Rejoined(message, marker, |before|);
  }

  /** No text holds a marker, ids end at the first closing brace, and nothing after an unclosed
      marker holds a brace: every placeholder of the message is a slot of its reading. */
  ghost predicate Tight(r: Reading, marker: string) {
    match r
    case Plain(text) => forall k: nat :: !OccursAt(text, marker, k)
    case Slot(before, id, rest) =>
      (forall k: nat :: !OccursAt(before, marker, k)) && '}' !in id && Tight(rest, marker)
    case Unclosed(before, rest) =>
      (forall k: nat :: !OccursAt(before, marker, k)) && '}' !in Written(rest, marker) && Tight(rest, marker)
  }

  lemma NoneBefore(message: string, marker: string, start: nat)
    requires marker != "" && Find(message, marker) == Some(start)
    ensures forall k: nat :: !OccursAt(message[..start], marker, k)
  {
    FindsLeftmost(message, marker, 0);
    forall k: nat ensures OccursAt(message[..start], marker, k) ==> k < start || |marker| == 0 {
    }
    forall k: nat | k + |marker| <= start
      ensures OccursAt(message[..start], marker, k) ==> OccursAt(message, marker, k)
    {
      assert message[..start][k..k + |marker|] == message[k..k + |marker|];
    }
  }

  lemma {:induction false} ReadingIsTight(message: string, marker: string)
    requires marker != ""
    ensures Tight(Read(message, marker), marker)
    decreases |message|
  {
    var found := Find(message, marker);
    if found.None? {
      FindsLeftmost(message, marker, 0);
    } else {
      var start := found.value;
      NoneBefore(message, marker, start);
      var after := message[start + |marker|..];
      var end := FindChar(after, '}');
      FindsFirstChar(after, '}', 0);
      if end.None? {
        ReadingIsTight(after, marker);
        ReadingSpellsMessage(after, marker);
        assert Read(message, marker) == Unclosed(message[..start], Read(after, marker));
      } else {
        ReadingIsTight(after[end.value + 1..], marker);
      }
    }
  }

  // ---- messages ----

  function Substituted(node: Node, input: string): string {
    if node.template.None? then "" else ReplaceAll(node.template.value, INPUT, input)
  }

  /** The nodes whose output the message of `node` reads. */
  function Names(node: Node, input: string): set<NodeId> {
    Mentions(Read(Substituted(node, input), OUTPUT))
  }

  function NodeMessage(node: Node, input: string, outputs: Outputs): string {
    if node.template.None? then input else Filled(Read(Substituted(node, input), OUTPUT), OUTPUT, outputs)
  }

  ghost predicate AgreeOn(a: Outputs, b: Outputs, names: set<NodeId>) {
    forall id | id in names :: (id in a <==> id in b) && (id in a ==> a[id] == b[id])
  }

  lemma {:induction false} FilledReads(r: Reading, marker: string, a: Outputs, b: Outputs)
    requires AgreeOn(a, b, Mentions(r))
    ensures Filled(r, marker, a) == Filled(r, marker, b)
  {
    match r
    case Plain(_) =>
    case Slot(_, id, rest) =>
      assert NodeId(id) in Mentions(r);
      FilledReads(rest, marker, a, b);
    case Unclosed(_, rest) =>
      FilledReads(rest, marker, a, b);
  }

  /** A message depends on nothing but the input and the outputs it names. */
  lemma MessageReadsItsNames(node: Node, input: string, a: Outputs, b: Outputs)
    requires AgreeOn(a, b, Names(node, input))
    ensures NodeMessage(node, input, a) == NodeMessage(node, input, b)
  {
    FilledReads(Read(Substituted(node, input), OUTPUT), OUTPUT, a, b);
  }

  lemma Associates(a: string, b: string, c: string)
    ensures (a + b) + c == a + (b + c)
  {
  }

  // ---- a named output shows ----

  lemma PrefixCancels(a: string, x: string, y: string)
    requires a + x == a + y
    ensures x == y
  {
    assert (a + x)[|a|..] == x && (a + y)[|a|..] == y;
  }

  lemma MarkedDiffers(x: string, y: string, text: string)
    ensures MISSING + x != ("#" + text) + y
  {
    assert (MISSING + x)[0] == '[' && (("#" + text) + y)[0] == '#';
  }

  /** Readings filled with and without the output of a node they mention differ. */
  lemma {:induction false} FilledDiffers(r: Reading, marker: string, without: Outputs, with: Outputs, b: NodeId)
    requires b in Mentions(r) && b !in without && b in with && |with[b]| > 0 && with[b][0] == '#'
    requires AgreeOn(without, with, Mentions(r) - {b})
    ensures Filled(r, marker, without) != Filled(r, marker, with)
  {
    match r
    case Slot(before, id, rest) =>
      var x, y := Filled(rest, marker, without), Filled(rest, marker, with);
      Associates(before, Produced(id, without), x);
      Associates(before, Produced(id, with), y);
      if Filled(r, marker, without) == Filled(r, marker, with) {
        PrefixCancels(before, Produced(id, without) + x, Produced(id, with) + y);
        if NodeId(id) == b {
          assert with[b] == "#" + with[b][1..];
          MarkedDiffers(x, y, with[b][1..]);
        } else {
          assert NodeId(id) in Mentions(r) - {b};
          PrefixCancels(Produced(id, with), x, y);
          FilledDiffers(rest, marker, without, with, b);
        }
      }
    case Unclosed(before, rest) =>
      FilledDiffers(rest, marker, without, with, b);
      if Filled(r, marker, without) == Filled(r, marker, with) {
        PrefixCancels(before + marker, Filled(rest, marker, without), Filled(rest, marker, with));
      }
  }

  lemma {:induction false} FilledUnmentioned(r: Reading, marker: string, outputs: Outputs)
    requires Mentions(r) == {}
    ensures Filled(r, marker, outputs) == Written(r, marker)
  {
    match r
    case Plain(_) =>
    case Slot(_, _, _) =>
    case Unclosed(_, rest) => FilledUnmentioned(rest, marker, outputs);
  }

  lemma InputReplaced(input: string)
    ensures ReplaceAll(INPUT, INPUT, input) == input
  {
    FindsLeftmost(INPUT, INPUT, 0);
    assert OccursAt(INPUT, INPUT, 0);
    var rest := INPUT[|INPUT|..];
    FindsLeftmost(rest, INPUT, 0);
    assert INPUT[..0] == "" && rest == "" && ReplaceAll(rest, INPUT, input) == "";
  }

  /** Even the template that is nothing but the input passes it on as it is only if the input holds
      no closed placeholder of its own. */
  lemma InputPassesExactly(node: Node, input: string)
    requires node.template == Some(INPUT)
    ensures (forall outputs :: NodeMessage(node, input, outputs) == input) <==> Mentions(Read(input, OUTPUT)) == {}
  {
    var r := Read(input, OUTPUT);
    InputReplaced(input);
    ReadingSpellsMessage(input, OUTPUT);
    if Mentions(r) == {} {
      forall outputs ensures NodeMessage(node, input, outputs) == input {
        FilledUnmentioned(r, OUTPUT, outputs);
      }
    } else {
      var b :| b in Mentions(r);
      FilledDiffers(r, OUTPUT, map[], map[b := "#"], b);
      assert NodeMessage(node, input, map[]) != NodeMessage(node, input, map[b := "#"]);
    }
  }

  // ---- what a message consists of ----

  /** What `message` expands to. */
  function Expanded(message: string, marker: string, outputs: Outputs): string
    requires marker != ""
  {
    Filled(Read(message, marker), marker, outputs)
  }

  lemma SlotExpanded(message: string, marker: string, outputs: Outputs, start: nat, end: nat)
    requires marker != "" && Find(message, marker) == Some(start)
    requires FindChar(message[start + |marker|..], '}') == Some(end)
    ensures var after := message[start + |marker|..];
      Expanded(message, marker, outputs)
      == (message[..start] + Produced(after[..end], outputs)) + Expanded(after[end + 1..], marker, outputs)
  {
    var before, after := message[..start], message[start + |marker|..];
    assert Read(message, marker) == Slot(before, after[..end], Read(after[end + 1..], marker));
  }

  lemma UnclosedExpanded(message: string, marker: string, outputs: Outputs, start: nat)
    requires marker != "" && Find(message, marker) == Some(start)
    requires FindChar(message[start + |marker|..], '}') == None
    ensures Expanded(message, marker, outputs)
         == (message[..start] + marker) + Expanded(message[start + |marker|..], marker, outputs)
  {
    assert Read(message, marker) == Unclosed(message[..start], Read(message[start + |marker|..], marker));
  }

  function Marked(marker: string, ids: seq<string>): (gaps: seq<string>)
    ensures |gaps| == |ids| && forall i | 0 <= i < |ids| :: gaps[i] == marker + ids[i] + "}"
  {
    seq(|ids|, i requires 0 <= i < |ids| => marker + ids[i] + "}")
  }

  function Inserted(ids: seq<string>, outputs: Outputs): (gaps: seq<string>)
    ensures |gaps| == |ids|
    ensures forall i | 0 <= i < |ids| ::
      gaps[i] == if NodeId(ids[i]) in outputs then outputs[NodeId(ids[i])] else "[no output]"
  {
    seq(|ids|, i requires 0 <= i < |ids| => Produced(ids[i], outputs))
  }

  /** No marker is closed in the text by a brace after it. */
  ghost predicate NoneClosed(text: string, marker: string) {
    forall k: nat | OccursAt(text, marker, k) :: '}' !in text[k + |marker|..]
  }

  /** Ids end at their first brace, and the texts between placeholders hold no other placeholder. */
  ghost predicate Proper(texts: seq<string>, ids: seq<string>, marker: string) {
    && |texts| == |ids| + 1 && NoneClosed(texts[|ids|], marker)
    && forall i | 0 <= i < |ids| :: '}' !in ids[i] && Free(texts[i], marker)
  }

  lemma UnclosedStays(message: string, marker: string, start: nat)
    requires marker != "" && Find(message, marker) == Some(start)
    requires '}' !in message[start + |marker|..]
    ensures NoneClosed(message, marker)
  {
    FindsLeftmost(message, marker, 0);
    forall k: nat | OccursAt(message, marker, k) ensures '}' !in message[k + |marker|..] {
      assert k >= start;
      assert message[k + |marker|..] == message[start + |marker|..][k - start..];
    }
  }

  /** Without a closing brace ahead the scan copies what is left. */
  lemma {:induction false} NothingClosed(message: string, marker: string, outputs: Outputs)
    requires marker != "" && '}' !in message
    ensures Filled(Read(message, marker), marker, outputs) == message
    decreases |message|
  {
    match Find(message, marker)
    case None =>
    case Some(start) =>
      FreeBefore(message, marker, start);
      var after := message[start + |marker|..];
      FindsFirstChar(after, '}', 0);
      NothingClosed(after, marker, outputs);
  }

  lemma OneMoreSlot(before: string, id: string, marker: string, outputs: Outputs, texts: seq<string>, ids: seq<string>)
    requires Free(before, marker) && '}' !in id && Proper(texts, ids, marker)
    ensures Proper([before] + texts, [id] + ids, marker)
    ensures Spelled([before] + texts, Marked(marker, [id] + ids))
         == before + (marker + id + "}") + Spelled(texts, Marked(marker, ids))
    ensures Spelled([before] + texts, Inserted([id] + ids, outputs))
         == before + Produced(id, outputs) + Spelled(texts, Inserted(ids, outputs))
  {
    assert Marked(marker, [id] + ids) == [marker + id + "}"] + Marked(marker, ids);
    assert Inserted([id] + ids, outputs) == [Produced(id, outputs)] + Inserted(ids, outputs);
    SpelledMore(before, marker + id + "}", texts, Marked(marker, ids));
    SpelledMore(before, Produced(id, outputs), texts, Inserted(ids, outputs));
  }

  lemma SlotSpelled(message: string, marker: string, start: nat, end: nat)
    requires marker != "" && Find(message, marker) == Some(start)
    requires FindChar(message[start + |marker|..], '}') == Some(end)
    ensures var after := message[start + |marker|..];
      '}' !in after[..end] && message == message[..start] + (marker + after[..end] + "}") + after[end + 1..]
  {
    FreeBefore(message, marker, start);
    var after := message[start + |marker|..];
    FindsFirstChar(after, '}', 0);
    assert after == after[..end] + "}" + after[end + 1..];
    assert after[0..end] == after[..end];
  }

  /** The message is its text with every placeholder, and nothing else, replaced by the output of the
      node it names. */
  lemma {:induction false} PlaceholdersReplaced(message: string, marker: string, outputs: Outputs)
    returns (texts: seq<string>, ids: seq<string>)
    requires marker != ""
    ensures Proper(texts, ids, marker) && message == Spelled(texts, Marked(marker, ids))
    ensures Expanded(message, marker, outputs) == Spelled(texts, Inserted(ids, outputs))
    decreases |message|
  {
    var found := Find(message, marker);
    texts, ids := [message], [];
    assert Marked(marker, []) == [] && Inserted([], outputs) == [];
    if found.None? {
      FindsLeftmost(message, marker, 0);
    } else {
      var start := found.value;
      FreeBefore(message, marker, start);
      var before, after := message[..start], message[start + |marker|..];
      FindsFirstChar(after, '}', 0);
      var closed := FindChar(after, '}');
      if closed.None? {
        UnclosedStays(message, marker, start);
        UnclosedExpanded(message, marker, outputs, start);
        NothingClosed(after, marker, outputs);
      } else {
        var id, rest := after[..closed.value], after[closed.value + 1..];
        SlotSpelled(message, marker, start, closed.value);
        SlotExpanded(message, marker, outputs, start, closed.value);
        texts, ids := PlaceholdersReplaced(rest, marker, outputs);
        OneMoreSlot(before, id, marker, outputs, texts, ids);
        texts, ids := [before] + texts, [id] + ids;
      }
    }
  }

  /** How a message comes from its template: `{input}` is replaced everywhere, then every closed
      `{output:...}` of the result by the output of the node it names. */
  lemma MessageIsBuilt(node: Node, input: string, outputs: Outputs)
    returns (filled: string, pieces: seq<string>, texts: seq<string>, ids: seq<string>)
    requires node.template.Some?
    ensures pieces != [] && forall i | 0 <= i < |pieces| :: Free(pieces[i], "{input}")
    ensures node.template.value == Spelled(pieces, Repeat("{input}", |pieces| - 1))
    ensures filled == Spelled(pieces, Repeat(input, |pieces| - 1))
    ensures Proper(texts, ids, "{output:") && filled == Spelled(texts, Marked("{output:", ids))
    ensures NodeMessage(node, input, outputs) == Spelled(texts, Inserted(ids, outputs))
  {
    filled := Substituted(node, input);
    pieces := ReplacesEvery(node.template.value, "{input}", input);
    texts, ids := PlaceholdersReplaced(filled, "{output:", outputs);
  }

  // ---- building a message ----

  /** What the text up to the marker and its placeholder, if it is closed, expand to. */
  method ExpandMarker(message: string, marker: string, outputs: Outputs, start: nat)
    returns (piece: string, rest: string)
    requires marker != "" && Find(message, marker) == Some(start)
    ensures Expanded(message, marker, outputs) == piece + Expanded(rest, marker, outputs) && |rest| < |message|
  {
    var before, after := message[..start], message[start + |marker|..];
    var end := FindChar(after, '}');
    if end.Some? {
      SlotExpanded(message, marker, outputs, start, end.value);
      return before + Produced(after[..end.value], outputs), after[end.value + 1..];
    } else {
      UnclosedExpanded(message, marker, outputs, start);
      return before + marker, after;
    }
  }

  lemma NoMarker(message: string, marker: string, outputs: Outputs)
    requires marker != "" && Find(message, marker) == None
    ensures Expanded(message, marker, outputs) == message
  {
  }

  method Expand(text: string, marker: string, outputs: Outputs) returns (result: string)
    requires marker != ""
    ensures result == Expanded(text, marker, outputs)
  {
    result := "";
    var remaining := text;
    ghost var goal := Expanded(text, marker, outputs);
    assert goal == result + goal;
    var start := Find(remaining, marker);
    while start.Some?
      invariant start == Find(remaining, marker)
      invariant goal == result + Expanded(remaining, marker, outputs)
      decreases |remaining|
    {
      var piece, rest := ExpandMarker(remaining, marker, outputs, start.value);
      Associates(result, piece, Expanded(rest, marker, outputs));
      result, remaining := result + piece, rest;
      start := Find(remaining, marker);
    }
    NoMarker(remaining, marker, outputs);
    result := result + remaining;
  }

  method BuildNodeMessage(node: Node, input: string, outputs: Outputs) returns (message: string)
    ensures message == NodeMessage(node, input, outputs)
  {
    if node.template.None? {
      return input;
    }
    message := Expand(ReplaceAll(node.template.value, INPUT, input), OUTPUT, outputs);
  }
}
