/**
 The byte-level line parser (src/utils/ascii_parser.rs): a state machine over bytes that keeps
 the current line, the finished lines, the current word and a column, and hands every byte on
 to the output handler.  Its meaning is declarative: cut the stream at form feeds and line
 breaks, edit each piece on its own.
 */
module LineEditor {
  import opened Basics

  const BEL: byte := 0x07
  const BS: byte := 0x08
  const HT: byte := 0x09
  const LF: byte := 0x0A
  const VT: byte := 0x0B
  const FF: byte := 0x0C
  const CR: byte := 0x0D
  const SUB: byte := 0x1A
  const ESC: byte := 0x1B
  const DEL: byte := 0x7F

  predicate Printable(b: byte) { 0x20 <= b <= 0x7E }

  predicate PrintableText(s: string) { forall i :: 0 <= i < |s| ==> ' ' <= s[i] <= '~' }

  predicate LineBreak(b: byte) { b == LF || b == VT }

  /** Number of spaces a tab stands for; the program panics on a tab of width zero. */
  function Pad(column: nat, tab: nat): nat {
    if tab == 0 then 0 else tab - column % tab
  }

  function Spaces(n: nat): (s: string)
    ensures |s| == n && PrintableText(s)
  {
    seq(n, _ => ' ')
  }

  function Pop(s: string): (r: string)
    ensures |r| == if s == [] then 0 else |s| - 1
  {
    if s == [] then s else s[..|s| - 1]
  }

  // ----- the machine --------------------------------------------------------------------------

  datatype State = State(line: string, lines: seq<string>, word: string, column: nat, output: seq<byte>)

  function Fresh(output: seq<byte>): State { State("", [], "", 0, output) }

  /** `flush_current_line`: an empty line is not recorded, and leaves the word alone. */
  function Flush(s: State): State {
    if s.line == "" then s else s.(line := "", lines := s.lines + [s.line], word := "")
  }

  /** One byte through `process_byte`. */
  function Step(s: State, b: byte, tab: nat): State {
    var t := s.(output := s.output + [if b == VT then LF else b]);
    if b == BS then
      if s.column > 0 then t.(column := s.column - 1, line := Pop(s.line)) else t
    else if b == HT then
      t.(line := s.line + Spaces(Pad(s.column, tab)), column := s.column + Pad(s.column, tab))
    else if LineBreak(b) then
      Flush(t).(column := 0)
    else if b == FF then
      Flush(t).(lines := [], column := 0)
    else if b == CR then
      t.(column := 0)
    else if b == SUB then
      t.(line := s.line + "^Z", column := s.column + 2)
    else if b == DEL then
      if s.line == "" then t
      else t.(line := Pop(s.line), column := if s.column > 0 then s.column - 1 else 0)
    else if Printable(b) then
      t.(line := s.line + [b as char], column := s.column + 1, word := if b == 0x20 then "" else s.word + [b as char])
    else if b == BEL || b == ESC then
      t
    else
      t.(line := s.line + "?", column := s.column + 1)
  }

  function Run(s: State, bytes: seq<byte>, tab: nat): State
    decreases |bytes|
  {
    if bytes == [] then s else Run(Step(s, bytes[0], tab), bytes[1..], tab)
  }

  // ----- the meaning ----------------------------------------------------------------------------

  /** What editing one line comes to: its text, and how much of it a carriage return has put out of
      the reach of backspace and of the column. */
  datatype Edited = Edited(text: string, guard: nat)

  function EditByte(e: Edited, b: byte, tab: nat): Edited {
    if b == BS then
      if |e.text| > e.guard then e.(text := Pop(e.text)) else e
    else if b == DEL then
      Edited(Pop(e.text), if e.guard < |e.text| then e.guard else |Pop(e.text)|)
    else if b == HT then
      e.(text := e.text + Spaces(Pad(if |e.text| > e.guard then |e.text| - e.guard else 0, tab)))
    else if b == CR then
      e.(guard := |e.text|)
    else if b == SUB then
      e.(text := e.text + "^Z")
    else if Printable(b) then
      e.(text := e.text + [b as char])
    else if b == BEL || b == ESC then
      e
    else
      e.(text := e.text + "?")
  }

  /** A line's bytes, edited from the left. */
  function EditLine(bytes: seq<byte>, tab: nat): Edited {
    if bytes == [] then Edited("", 0)
    else EditByte(EditLine(bytes[..|bytes| - 1], tab), bytes[|bytes| - 1], tab)
  }

  /** The bytes after the last form feed. */
  function AfterFormFeed(bytes: seq<byte>): seq<byte> {
    if FF !in bytes then bytes else AfterFormFeed(bytes[1..])
  }

  /** The stretches between line breaks; the last one is still open. */
  function Stretches(bytes: seq<byte>): (r: seq<seq<byte>>)
    ensures |r| > 0
  {
    if bytes == [] then [[]] else Prepend(bytes[0], Stretches(bytes[1..]))
  }

  function Prepend(b: byte, r: seq<seq<byte>>): seq<seq<byte>>
    requires r != []
  {
    if LineBreak(b) then [[]] + r else [[b] + r[0]] + r[1..]
  }

  function Append(r: seq<seq<byte>>, b: byte): seq<seq<byte>>
    requires r != []
  {
    if LineBreak(b) then r + [[]] else ButLast(r) + [Last(r) + [b]]
  }

  /** The edited texts that are not empty, in order. */
  function Recorded(stretches: seq<seq<byte>>, tab: nat): seq<string> {
    if stretches == [] then []
    else
      var text := EditLine(stretches[0], tab).text;
      (if text == "" then [] else [text]) + Recorded(stretches[1..], tab)
  }

  /** What reached the output handler. */
  function PassedOn(bytes: seq<byte>): seq<byte> {
    seq(|bytes|, i requires 0 <= i < |bytes| => if bytes[i] == VT then LF else bytes[i])
  }

  function Last<T>(s: seq<T>): T
    requires s != []
  {
    s[|s| - 1]
  }

  function ButLast<T>(s: seq<T>): seq<T>
    requires s != []
  {
    s[..|s| - 1]
  }

  // ----- feeding one more byte ---------------------------------------------------------------

  /** Feeding a stream in two chunks is feeding it whole. */
  lemma {:induction false} RunSplit(s: State, a: seq<byte>, b: seq<byte>, tab: nat)
    ensures Run(s, a + b, tab) == Run(Run(s, a, tab), b, tab)
    decreases |a|
  {
    if a == [] {
      assert a + b == b;
    } else {
      assert (a + b)[1..] == a[1..] + b;
      RunSplit(Step(s, a[0], tab), a[1..], b, tab);
    }
  }

  lemma RunOneMore(s: State, bytes: seq<byte>, b: byte, tab: nat)
    ensures Run(s, bytes + [b], tab) == Step(Run(s, bytes, tab), b, tab)
  {
    RunSplit(s, bytes, [b], tab);
  }

  lemma {:induction false} AfterFormFeedOneMore(bytes: seq<byte>, b: byte)
    ensures AfterFormFeed(bytes + [b]) == if b == FF then [] else AfterFormFeed(bytes) + [b]
  {
    if bytes == [] {
      assert bytes + [b] == [b] && [b][1..] == [];
    } else {
      assert (bytes + [b])[1..] == bytes[1..] + [b];
      AfterFormFeedOneMore(bytes[1..], b);
      assert bytes == [bytes[0]] + bytes[1..];
    }
  }

  lemma PrependAppend(a: byte, r: seq<seq<byte>>, b: byte)
    requires r != []
    ensures Prepend(a, Append(r, b)) == Append(Prepend(a, r), b)
  {
    if LineBreak(a) {
      PrependBreak(r, b);
    } else if LineBreak(b) {
      assert (r + [[]])[0] == r[0] && (r + [[]])[1..] == r[1..] + [[]];
      assert [[a] + r[0]] + (r[1..] + [[]]) == [[a] + r[0]] + r[1..] + [[]];
    } else {
      PrependEdit(a, r, b);
    }
  }

  lemma PrependBreak(r: seq<seq<byte>>, b: byte)
    requires r != []
    ensures [[]] + Append(r, b) == Append([[]] + r, b)
  {
    var more := [[]] + r;
    assert Last(more) == Last(r) && ButLast(more) == [[]] + ButLast(r);
    assert [[]] + (ButLast(r) + [Last(r) + [b]]) == [[]] + ButLast(r) + [Last(r) + [b]];
    assert [[]] + (r + [[]]) == [[]] + r + [[]];
  }

  lemma PrependEdit(a: byte, r: seq<seq<byte>>, b: byte)
    requires r != [] && !LineBreak(a) && !LineBreak(b)
    ensures Prepend(a, Append(r, b)) == Append(Prepend(a, r), b)
  {
    var (x, y) := (Append(r, b), Prepend(a, r));
    if |r| == 1 {
      assert x == [r[0] + [b]] && y == [[a] + r[0]];
      assert [a] + (r[0] + [b]) == [a] + r[0] + [b];
      assert ButLast(y) == [] && x[1..] == [];
    } else {
      assert x[0] == r[0] && x[1..] == ButLast(r)[1..] + [Last(r) + [b]];
      assert Last(y) == Last(r) && ButLast(y) == [[a] + r[0]] + ButLast(r)[1..];
      assert [[a] + r[0]] + (ButLast(r)[1..] + [Last(r) + [b]]) == [[a] + r[0]] + ButLast(r)[1..] + [Last(r) + [b]];
    }
  }

  lemma {:induction false} StretchesOneMore(bytes: seq<byte>, b: byte)
    ensures Stretches(bytes + [b]) == Append(Stretches(bytes), b)
  {
    if bytes == [] {
      assert bytes + [b] == [b] && [b][1..] == [];
      assert Stretches([]) == [[]] && [b] + [] == [] + [b] == [b];
      assert Stretches([b]) == Prepend(b, [[]]);
    } else {
      assert (bytes + [b])[1..] == bytes[1..] + [b];
      StretchesOneMore(bytes[1..], b);
      PrependAppend(bytes[0], Stretches(bytes[1..]), b);
    }
  }

  lemma {:induction false} RecordedOneMore(stretches: seq<seq<byte>>, x: seq<byte>, tab: nat)
    ensures var text := EditLine(x, tab).text;
            Recorded(stretches + [x], tab) == Recorded(stretches, tab) + if text == "" then [] else [text]
  {
    if stretches == [] {
      assert stretches + [x] == [x];
    } else {
      assert (stretches + [x])[1..] == stretches[1..] + [x];
      RecordedOneMore(stretches[1..], x, tab);
    }
  }

  lemma EditLineOneMore(bytes: seq<byte>, b: byte, tab: nat)
    ensures EditLine(bytes + [b], tab) == EditByte(EditLine(bytes, tab), b, tab)
  {
    assert (bytes + [b])[..|bytes|] == bytes;
  }

  // ----- refinement -----------------------------------------------------------------------------

  lemma {:induction false} EditedWellFormed(bytes: seq<byte>, tab: nat)
    ensures var e := EditLine(bytes, tab); e.guard <= |e.text| && PrintableText(e.text)
  {
    if bytes != [] {
      EditedWellFormed(bytes[..|bytes| - 1], tab);
    }
  }

  /** The line under edit after `bytes`. */
  function OpenText(bytes: seq<byte>, tab: nat): string { EditLine(Last(Stretches(AfterFormFeed(bytes))), tab).text }

  /** Where the word starts afresh: at a space, and at a line break or form feed that ends a line with
      something on it. */
  predicate EndsWord(bytes: seq<byte>, i: nat, tab: nat)
    requires i < |bytes|
  {
    bytes[i] == 0x20 || ((LineBreak(bytes[i]) || bytes[i] == FF) && OpenText(bytes[..i], tab) != "")
  }

  /** How many bytes there are up to the last end of a word. */
  function WordStart(bytes: seq<byte>, tab: nat): (k: nat)
    ensures k <= |bytes|
  {
    if bytes == [] then 0
    else if EndsWord(bytes, |bytes| - 1, tab) then |bytes|
    else WordStart(ButLast(bytes), tab)
  }

  /** The printable ones among some bytes. */
  function Typed(bytes: seq<byte>): string {
    if bytes == [] then ""
    else Typed(ButLast(bytes)) + TypedByte(Last(bytes))
  }

  function TypedByte(b: byte): string { if Printable(b) then [b as char] else "" }

  lemma EndsWordBefore(bytes: seq<byte>, i: nat, tab: nat)
    requires i + 1 < |bytes|
    ensures EndsWord(ButLast(bytes), i, tab) == EndsWord(bytes, i, tab)
  {
    assert ButLast(bytes)[..i] == bytes[..i];
  }

  /** A word starts right after an end, or with the stream, and holds no end. */
  lemma {:induction false} WordStartIsLast(bytes: seq<byte>, tab: nat)
    ensures var k := WordStart(bytes, tab);
            && (forall i :: k <= i < |bytes| ==> !EndsWord(bytes, i, tab))
            && (k > 0 ==> EndsWord(bytes, k - 1, tab))
  {
    if bytes != [] && !EndsWord(bytes, |bytes| - 1, tab) {
      WordStartIsLast(ButLast(bytes), tab);
      var k := WordStart(bytes, tab);
      forall i | k <= i < |bytes| ensures !EndsWord(bytes, i, tab) {
        if i < |bytes| - 1 {
          EndsWordBefore(bytes, i, tab);
        }
      }
      if k > 0 {
        EndsWordBefore(bytes, k - 1, tab);
      }
    }
  }

  /** The parser's visible state after `bytes`, told from the stream alone. */
  ghost predicate Means(s: State, bytes: seq<byte>, tab: nat) {
    var r := Stretches(AfterFormFeed(bytes));
    var e := EditLine(Last(r), tab);
    && s.lines == Recorded(ButLast(r), tab)
    && s.line == e.text
    && s.column == |e.text| - e.guard
    && s.word == Typed(bytes[WordStart(bytes, tab)..])
  }

  lemma WordStartMore(bytes: seq<byte>, b: byte, tab: nat)
    ensures var more := bytes + [b];
            WordStart(more, tab) == if EndsWord(more, |bytes|, tab) then |more| else WordStart(bytes, tab)
  {
    assert ButLast(bytes + [b]) == bytes;
  }

  lemma TypedMore(bytes: seq<byte>, b: byte)
    ensures Typed(bytes + [b]) == Typed(bytes) + TypedByte(b)
  {
    assert ButLast(bytes + [b]) == bytes && Last(bytes + [b]) == b;
  }

  lemma StepWord(s: State, b: byte, tab: nat)
    ensures Step(s, b, tab).word == if b == 0x20 || ((LineBreak(b) || b == FF) && s.line != "") then ""
                                    else s.word + TypedByte(b)
  {
  }

  lemma WordMore(bytes: seq<byte>, b: byte, tab: nat)
    ensures var more, word := bytes + [b], Typed(bytes[WordStart(bytes, tab)..]);
            Typed(more[WordStart(more, tab)..]) == if EndsWord(more, |bytes|, tab) then "" else word + TypedByte(b)
  {
    var more := bytes + [b];
    var k := WordStart(bytes, tab);
    WordStartMore(bytes, b, tab);
    if EndsWord(more, |bytes|, tab) {
      assert more[|more|..] == [];
    } else {
      assert more[k..] == bytes[k..] + [b];
      TypedMore(bytes[k..], b);
    }
  }

  lemma WordMeansStep(s: State, bytes: seq<byte>, b: byte, tab: nat)
    requires s.line == OpenText(bytes, tab) && s.word == Typed(bytes[WordStart(bytes, tab)..])
    ensures var more := bytes + [b]; Step(s, b, tab).word == Typed(more[WordStart(more, tab)..])
  {
    var more := bytes + [b];
    StepWord(s, b, tab);
    WordMore(bytes, b, tab);
    assert more[..|bytes|] == bytes && more[|bytes|] == b;
    assert EndsWord(more, |bytes|, tab) <==> b == 0x20 || ((LineBreak(b) || b == FF) && s.line != "");
  }

  lemma RecordedAll(r: seq<seq<byte>>, tab: nat)
    requires r != []
    ensures var text := EditLine(Last(r), tab).text;
            Recorded(r, tab) == Recorded(ButLast(r), tab) + if text == "" then [] else [text]
  {
    assert r == ButLast(r) + [Last(r)];
    RecordedOneMore(ButLast(r), Last(r), tab);
  }

  lemma BreakStep(s: State, x: seq<byte>, b: byte, tab: nat)
    requires LineBreak(b)
    requires var r := Stretches(x);
             s.lines == Recorded(ButLast(r), tab) && s.line == EditLine(Last(r), tab).text
    ensures var r := Stretches(x + [b]);
            var t := Step(s, b, tab);
            t.lines == Recorded(ButLast(r), tab) && t.line == "" && t.column == 0 && Last(r) == []
  {
    var r := Stretches(x);
    StretchesOneMore(x, b);
    assert ButLast(r + [[]]) == r;
    RecordedAll(r, tab);
  }

  lemma EditByteStep(s: State, e: Edited, b: byte, tab: nat)
    requires !LineBreak(b) && b != FF
    requires e.guard <= |e.text| && s.line == e.text && s.column == |e.text| - e.guard
    ensures var (f, t) := (EditByte(e, b, tab), Step(s, b, tab));
            t.lines == s.lines && t.line == f.text && t.column == |f.text| - f.guard
  {
  }

  lemma EditStep(s: State, bytes: seq<byte>, b: byte, tab: nat)
    requires !LineBreak(b) && b != FF
    requires var e := EditLine(bytes, tab);
             e.guard <= |e.text| && s.line == e.text && s.column == |e.text| - e.guard
    ensures var e := EditLine(bytes + [b], tab);
            var t := Step(s, b, tab);
            t.lines == s.lines && t.line == e.text && t.column == |e.text| - e.guard
  {
    EditLineOneMore(bytes, b, tab);
    EditByteStep(s, EditLine(bytes, tab), b, tab);
  }

  lemma MeansStep(s: State, bytes: seq<byte>, b: byte, tab: nat)
    requires Means(s, bytes, tab)
    ensures Means(Step(s, b, tab), bytes + [b], tab)
  {
    var x := AfterFormFeed(bytes);
    var r := Stretches(x);
    AfterFormFeedOneMore(bytes, b);
    WordMeansStep(s, bytes, b, tab);
    if LineBreak(b) {
      BreakStep(s, x, b, tab);
    } else if b != FF {
      StretchesOneMore(x, b);
      assert ButLast(ButLast(r) + [Last(r) + [b]]) == ButLast(r);
      EditedWellFormed(Last(r), tab);
      EditStep(s, Last(r), b, tab);
    }
  }

  /** For every stream: the recorded lines are the non-empty edited lines since the last form feed,
      the current line is the edited tail, the column is what a carriage return leaves of it, and the
      word is what was typed since the last space or the last break that ended a non-empty line. */
  lemma {:induction false} LinesRefineEditing(output: seq<byte>, bytes: seq<byte>, tab: nat)
    ensures Means(Run(Fresh(output), bytes, tab), bytes, tab)
    decreases |bytes|
  {
    if bytes != [] {
      LinesRefineEditing(output, ButLast(bytes), tab);
      assert bytes == ButLast(bytes) + [Last(bytes)];
      RunOneMore(Fresh(output), ButLast(bytes), Last(bytes), tab);
      MeansStep(Run(Fresh(output), ButLast(bytes), tab), ButLast(bytes), Last(bytes), tab);
    } else {
      assert Run(Fresh(output), bytes, tab) == Fresh(output);
    }
  }

  /** Editing as a stack of characters: backspace and delete are the same pop. */
  function StackLine(bytes: seq<byte>, tab: nat): string {
    if bytes == [] then ""
    else
      var s := StackLine(bytes[..|bytes| - 1], tab);
      var b := bytes[|bytes| - 1];
      if b == BS || b == DEL then Pop(s)
      else if b == HT then s + Spaces(Pad(|s|, tab))
      else if b == SUB then s + "^Z"
      else if Printable(b) then s + [b as char]
      else if b == BEL || b == ESC then s
      else s + "?"
  }

  /** Without a carriage return nothing is out of reach and editing is the plain stack. */
  lemma {:induction false} PlainStack(bytes: seq<byte>, tab: nat)
    requires CR !in bytes
    ensures EditLine(bytes, tab) == Edited(StackLine(bytes, tab), 0)
  {
    if bytes != [] {
      PlainStack(bytes[..|bytes| - 1], tab);
    }
  }

  /** The stretches with one line feed between each two. */
  function Rejoin(stretches: seq<seq<byte>>): seq<byte>
    requires stretches != []
  {
    if |stretches| == 1 then stretches[0] else stretches[0] + [LF] + Rejoin(stretches[1..])
  }

  lemma RejoinPrepend(b: byte, r: seq<seq<byte>>)
    requires r != []
    ensures Rejoin(Prepend(b, r)) == [if LineBreak(b) then LF else b] + Rejoin(r)
  {
    if LineBreak(b) {
      assert ([[]] + r)[1..] == r && [] + [LF] == [LF];
    } else {
      assert ([[b] + r[0]] + r[1..])[1..] == r[1..];
      if |r| > 1 {
        assert [b] + r[0] + [LF] + Rejoin(r[1..]) == [b] + (r[0] + [LF] + Rejoin(r[1..]));
      }
    }
  }

  lemma PassedOnFirst(bytes: seq<byte>)
    requires bytes != []
    ensures PassedOn(bytes) == [if bytes[0] == VT then LF else bytes[0]] + PassedOn(bytes[1..])
  {
  }

  /** Cutting loses nothing but which of the two breaks it was, and no stretch holds a break. */
  lemma {:induction false} StretchesCover(bytes: seq<byte>)
    ensures Rejoin(Stretches(bytes)) == PassedOn(bytes)
    ensures forall i, b :: 0 <= i < |Stretches(bytes)| && b in Stretches(bytes)[i] ==> !LineBreak(b)
  {
    if bytes != [] {
      StretchesCover(bytes[1..]);
      RejoinPrepend(bytes[0], Stretches(bytes[1..]));
      PassedOnFirst(bytes);
    }
  }

  /** Column and current line over every run: the column never passes the end of the line, and meets
      it when no carriage return came since the last line break or form feed. */
  lemma ColumnBound(output: seq<byte>, bytes: seq<byte>, tab: nat)
    ensures var s := Run(Fresh(output), bytes, tab);
            && s.column <= |s.line| && PrintableText(s.line) && (forall c :: c in s.line ==> 0x20 <= c as int <= 0x7E)
            && (CR !in Last(Stretches(AfterFormFeed(bytes))) ==>
                  s.column == |s.line| && s.line == StackLine(Last(Stretches(AfterFormFeed(bytes))), tab))
  {
    LinesRefineEditing(output, bytes, tab);
    var tail := Last(Stretches(AfterFormFeed(bytes)));
    EditedWellFormed(tail, tab);
    if CR !in tail {
      PlainStack(tail, tab);
    }
  }

  lemma {:induction false} RecordedLines(stretches: seq<seq<byte>>, tab: nat)
    ensures forall line :: line in Recorded(stretches, tab) ==> line != "" && PrintableText(line)
  {
    if stretches != [] {
      EditedWellFormed(stretches[0], tab);
      RecordedLines(stretches[1..], tab);
    }
  }

  /** No recorded line is empty or holds anything but printable ASCII. */
  lemma BufferedLines(output: seq<byte>, bytes: seq<byte>, tab: nat)
    ensures forall line :: line in Run(Fresh(output), bytes, tab).lines ==> line != "" && PrintableText(line)
    ensures forall line, c :: line in Run(Fresh(output), bytes, tab).lines && c in line ==> 0x20 <= c as int <= 0x7E
  {
    LinesRefineEditing(output, bytes, tab);
    RecordedLines(ButLast(Stretches(AfterFormFeed(bytes))), tab);
  }

  /** Every byte reaches the handler, unchanged except that a vertical tab arrives as a line feed. */
  lemma {:induction false} PassThrough(s: State, bytes: seq<byte>, tab: nat)
    ensures Run(s, bytes, tab).output == s.output + PassedOn(bytes)
    decreases |bytes|
  {
    if bytes != [] {
      PassThrough(Step(s, bytes[0], tab), bytes[1..], tab);
      assert PassedOn(bytes) == [PassedOn(bytes)[0]] + PassedOn(bytes[1..]);
    }
  }

  // ----- words ----------------------------------------------------------------------------------

  /** The longest suffix without a space. */
  function LastWord(s: string): string {
    if s == "" || s[|s| - 1] == ' ' then "" else LastWord(s[..|s| - 1]) + [s[|s| - 1]]
  }

  lemma {:induction false} LastWordIsLongest(s: string)
    ensures var w := LastWord(s);
            && |w| <= |s| && w == s[|s| - |w|..] && ' ' !in w
            && (|w| < |s| ==> s[|s| - |w| - 1] == ' ')
  {
    if s != "" && s[|s| - 1] != ' ' {
      LastWordIsLongest(s[..|s| - 1]);
    }
  }

  predicate WordSafe(b: byte) {
    Printable(b) || LineBreak(b) || b == FF || b == CR || b == BEL || b == ESC
  }

  /** The word is the tail of the line. */
  predicate InStep(s: State) { s.word == LastWord(s.line) }

  /** Popping takes nothing of the word: there is a space to pop, and nothing of a word before it. */
  predicate PopsSpace(line: string) {
    line != "" && line[|line| - 1] == ' ' && (|line| == 1 || line[|line| - 2] == ' ')
  }

  /** The bytes, seen from the state they meet, that keep the word the tail of the line. */
  predicate KeepsWord(s: State, b: byte) {
    || WordSafe(b)
    || (b == BS && (s.column == 0 || PopsSpace(s.line)))
    || (b == DEL && (s.line == "" || PopsSpace(s.line)))
    || (b == HT && s.word == "")
  }

  lemma LastWordMore(line: string, c: char)
    ensures LastWord(line + [c]) == if c == ' ' then "" else LastWord(line) + [c]
  {
    assert (line + [c])[..|line|] == line;
  }

  lemma PopStep(line: string)
    requires line != ""
    ensures LastWord(Pop(line)) == LastWord(line) <==> PopsSpace(line)
  {
  }

  lemma SubstituteStep(line: string)
    ensures LastWord(line + "^Z") == LastWord(line) + "^Z"
  {
    assert line + "^Z" == line + "^" + "Z";
    LastWordMore(line, '^');
    LastWordMore(line + "^", 'Z');
  }

  lemma TabStep(line: string, n: nat)
    requires n > 0
    ensures LastWord(line + Spaces(n)) == ""
  {
    assert line + Spaces(n) == line + Spaces(n - 1) + " ";
    LastWordMore(line + Spaces(n - 1), ' ');
  }

  /** From a state in step, exactly the bytes of `KeepsWord` lead to a state in step. */
  lemma WordStep(s: State, b: byte, tab: nat)
    requires InStep(s) && s.column <= |s.line| && tab > 0
    ensures InStep(Step(s, b, tab)) <==> KeepsWord(s, b)
  {
    if Printable(b) {
      LastWordMore(s.line, b as char);
    } else if b == HT {
      TabStep(s.line, Pad(s.column, tab));
    } else if b == SUB {
      SubstituteStep(s.line);
    } else if b == BS || b == DEL {
      if s.line != "" {
        PopStep(s.line);
      }
    } else if !WordSafe(b) {
      LastWordMore(s.line, '?');
    }
  }

  lemma ColumnStep(s: State, b: byte, tab: nat)
    requires s.column <= |s.line|
    ensures var t := Step(s, b, tab); t.column <= |t.line|
  {
  }

  /** The word is the tail of the line after every prefix. */
  predicate AlwaysInStep(s: State, bytes: seq<byte>, tab: nat)
    decreases |bytes|
  {
    InStep(s) && (bytes != [] ==> AlwaysInStep(Step(s, bytes[0], tab), bytes[1..], tab))
  }

  /** Every byte, at the state it meets, keeps the word the tail of the line. */
  predicate AllKeepWord(s: State, bytes: seq<byte>, tab: nat)
    decreases |bytes|
  {
    bytes != [] ==> KeepsWord(s, bytes[0]) && AllKeepWord(Step(s, bytes[0], tab), bytes[1..], tab)
  }

  /** For every stream: the word is the tail of the line after every prefix if and only if every byte,
      at the state it meets, is one that keeps it so. */
  lemma {:induction false} InStepExactly(s: State, bytes: seq<byte>, tab: nat)
    requires InStep(s) && s.column <= |s.line| && tab > 0
    ensures AlwaysInStep(s, bytes, tab) <==> AllKeepWord(s, bytes, tab)
    decreases |bytes|
  {
    if bytes != [] {
      var t := Step(s, bytes[0], tab);
      WordStep(s, bytes[0], tab);
      ColumnStep(s, bytes[0], tab);
      if InStep(t) {
        InStepExactly(t, bytes[1..], tab);
      }
    }
  }

  /** `AlwaysInStep` speaks of every prefix. */
  lemma {:induction false} AlwaysIsPrefixes(s: State, bytes: seq<byte>, tab: nat)
    ensures AlwaysInStep(s, bytes, tab) <==> forall n :: 0 <= n <= |bytes| ==> InStep(Run(s, bytes[..n], tab))
    decreases |bytes|
  {
    assert Run(s, bytes[..0], tab) == s;
    if bytes != [] {
      var t, rest := Step(s, bytes[0], tab), bytes[1..];
      AlwaysIsPrefixes(t, rest, tab);
      forall n | 0 < n <= |bytes| ensures Run(s, bytes[..n], tab) == Run(t, rest[..n - 1], tab) {
        assert bytes[..n][0] == bytes[0] && bytes[..n][1..] == rest[..n - 1];
      }
      if !AlwaysInStep(t, rest, tab) {
        var n :| 0 <= n <= |rest| && !InStep(Run(t, rest[..n], tab));
        assert !InStep(Run(s, bytes[..n + 1], tab));
      }
    }
  }

  lemma SafeStep(s: State, b: byte, tab: nat)
    requires InStep(s) && WordSafe(b)
    ensures InStep(Step(s, b, tab))
  {
    if Printable(b) {
      LastWordMore(s.line, b as char);
    }
  }

  /** As long as nothing is erased, padded or replaced, the word is the tail of the line. */
  lemma {:induction false} WordIsTail(s: State, bytes: seq<byte>, tab: nat)
    requires s.word == LastWord(s.line)
    requires forall b :: b in bytes ==> WordSafe(b)
    ensures var t := Run(s, bytes, tab); t.word == LastWord(t.line)
    decreases |bytes|
  {
    if bytes != [] {
      assert bytes[0] in bytes;
      SafeStep(s, bytes[0], tab);
      WordIsTail(Step(s, bytes[0], tab), bytes[1..], tab);
    }
  }

  /** An erased character stays in the word, which then is no tail of the line; and when the line is
      empty, a line break does not clear the word, so it turns up in front of the next line's. */
  lemma WordKeepsErased(s: State, c: byte, d: byte, tab: nat)
    requires InStep(s) && Printable(c) && Printable(d) && c != 0x20 && d != 0x20
    ensures var t := Step(Step(s, c, tab), BS, tab);
            && t.line == s.line && t.word == s.word + [c as char] && !InStep(t)
            && (s.line == "" ==>
                  var u := Step(Step(t, LF, tab), d, tab);
                  u.line == [d as char] && u.word == [c as char, d as char] && !InStep(u))
  {
    assert (s.line + [c as char])[..|s.line|] == s.line;
    LastWordMore("", d as char);
    assert "" + [d as char] == [d as char];
  }

  // ----- the bytes, written out --------------------------------------------------------------------

  function WithOutput(s: State, b: byte): State { s.(output := s.output + [b]) }

  /** Bytes that leave the line alone: bell and escape change nothing, a carriage return goes to the first
      column.  Each is handed on as it is. */
  lemma QuietBytes(s: State, tab: nat)
    ensures Step(s, 0x07, tab) == WithOutput(s, 0x07)
    ensures Step(s, 0x1B, tab) == WithOutput(s, 0x1B)
    ensures Step(s, 0x0D, tab) == WithOutput(s, 0x0D).(column := 0)
  {
  }

  /** Backspace takes the last character when the column is not the first, delete takes it always; the word
      and the recorded lines stay. */
  lemma EraseBytes(s: State, tab: nat)
    ensures s.column == 0 ==> Step(s, 0x08, tab) == WithOutput(s, 0x08)
    ensures s.column > 0 && s.line != "" ==>
      Step(s, 0x08, tab) == WithOutput(s, 0x08).(column := s.column - 1, line := s.line[..|s.line| - 1])
    ensures s.line == "" ==> Step(s, 0x7F, tab) == WithOutput(s, 0x7F)
    ensures s.line != "" ==>
      Step(s, 0x7F, tab)
        == WithOutput(s, 0x7F).(column := if s.column == 0 then 0 else s.column - 1, line := s.line[..|s.line| - 1])
  {
  }

  /** Line feed and vertical tab record the line at the end of the others, unless it is empty, and both are
      handed on as a line feed; a form feed drops all that was recorded. */
  lemma BreakBytes(s: State, tab: nat)
    ensures s.line != "" ==>
      Step(s, 0x0A, tab) == Step(s, 0x0B, tab) == State("", s.lines + [s.line], "", 0, s.output + [0x0A])
    ensures s.line == "" ==> Step(s, 0x0A, tab) == Step(s, 0x0B, tab) == WithOutput(s, 0x0A).(column := 0)
    ensures s.line != "" ==> Step(s, 0x0C, tab) == State("", [], "", 0, s.output + [0x0C])
    ensures s.line == "" ==> Step(s, 0x0C, tab) == WithOutput(s, 0x0C).(column := 0, lines := [])
  {
  }

  /** A tab adds spaces up to the next multiple of its width, at least one. */
  lemma TabByte(s: State, tab: nat) returns (k: nat)
    requires tab > 0
    ensures 1 <= k <= tab && s.column + k == tab * (s.column / tab + 1)
    ensures var t := Step(s, 0x09, tab);
            && t == WithOutput(s, 0x09).(column := s.column + k, line := t.line)
            && |t.line| == |s.line| + k && t.line[..|s.line|] == s.line
            && forall i :: |s.line| <= i < |t.line| ==> t.line[i] == ' '
  {
    k := tab - s.column % tab;
    assert tab * (s.column / tab) + s.column % tab == s.column;
  }

  /** The bytes from 0x20 to 0x7E are added as characters, a space ending the word; 0x1A adds `^Z`; all that
      is left adds a question mark. */
  lemma TextBytes(s: State, b: byte, tab: nat)
    ensures 0x20 <= b <= 0x7E ==>
      Step(s, b, tab) == WithOutput(s, b).(column := s.column + 1, line := s.line + [b as char],
                                           word := if b == 0x20 then "" else s.word + [b as char])
    ensures b == 0x1A ==> Step(s, b, tab) == WithOutput(s, b).(column := s.column + 2, line := s.line + ['^', 'Z'])
    ensures (b < 0x20 && b !in {0x07, 0x08, 0x09, 0x0A, 0x0B, 0x0C, 0x0D, 0x1A, 0x1B}) || b > 0x7F ==>
      Step(s, b, tab) == WithOutput(s, b).(column := s.column + 1, line := s.line + ['?'])
  {
  }

  // ----- the parser ------------------------------------------------------------------------------

  class AsciiParser {
    var currentLine: string
    var lineBuffer: seq<string>
    var wordBuffer: string
    var columnPosition: nat
    var tabWidth: nat
    /** What the output handler has received. */
    var output: seq<byte>

    function View(): State
      reads this
    {
      State(currentLine, lineBuffer, wordBuffer, columnPosition, output)
    }

    constructor ()
      ensures View() == Fresh([]) && tabWidth == 8
    {
      currentLine, lineBuffer, wordBuffer := "", [], "";
      columnPosition, tabWidth, output := 0, 8, [];
    }

    method SetTabWidth(width: nat)
      modifies this`tabWidth
      ensures tabWidth == width
    {
      tabWidth := width;
    }

    /** A tab of width zero panics in the source: the remainder divides by it. */
    method ProcessBytes(bytes: seq<byte>)
      requires HT in bytes ==> tabWidth > 0
      modifies this
      ensures View() == Run(old(View()), bytes, tabWidth) && tabWidth == old(tabWidth)
    {
      for i := 0 to |bytes|
        invariant tabWidth == old(tabWidth)
        invariant View() == Run(old(View()), bytes[..i], tabWidth)
      {
        ProcessByte(bytes[i]);
        RunOneMore(old(View()), bytes[..i], bytes[i], tabWidth);
        assert bytes[..i + 1] == bytes[..i] + [bytes[i]];
      }
      assert bytes[..|bytes|] == bytes;
    }

    method ProcessByte(b: byte)
      requires b == HT ==> tabWidth > 0
      modifies this
      ensures View() == Step(old(View()), b, tabWidth) && tabWidth == old(tabWidth)
    {
      if b == BEL { HandleBell(); }
      else if b == BS { HandleBackspace(); }
      else if b == HT { HandleTab(); }
      else if b == LF { HandleLinefeed(); }
      else if b == VT { HandleVerticalTab(); }
      else if b == FF { HandleFormFeed(); }
      else if b == CR { HandleCarriageReturn(); }
      else if b == SUB { HandleSubstitute(); }
      else if b == ESC { HandleEscape(); }
      else if b == DEL { HandleDelete(); }
      else if Printable(b) { HandlePrintable(b); }
      else { HandleInvalidByte(b); }
    }

    method HandleOutput(data: seq<byte>)
      modifies this`output
      ensures output == old(output) + data
    {
      output := output + data;
    }

    method HandleBell()
      modifies this
      ensures View() == Step(old(View()), BEL, tabWidth) && tabWidth == old(tabWidth)
    {
      HandleOutput([BEL]);
    }

    method HandleBackspace()
      modifies this
      ensures View() == Step(old(View()), BS, tabWidth) && tabWidth == old(tabWidth)
    {
      if columnPosition > 0 {
        columnPosition := columnPosition - 1;
        if currentLine != "" {
          currentLine := currentLine[..|currentLine| - 1];
        }
      }
      HandleOutput([BS]);
    }

    method HandleTab()
      requires tabWidth > 0
      modifies this
      ensures View() == Step(old(View()), HT, tabWidth) && tabWidth == old(tabWidth)
      ensures columnPosition == tabWidth * (old(columnPosition) / tabWidth + 1)
    {
      var spacesToAdd := tabWidth - columnPosition % tabWidth;
      currentLine := currentLine + Spaces(spacesToAdd);
      columnPosition := columnPosition + spacesToAdd;
      HandleOutput([HT]);
    }

    method HandleLinefeed()
      modifies this
      ensures View() == Step(old(View()), LF, tabWidth) && tabWidth == old(tabWidth)
    {
      FlushCurrentLine();
      columnPosition := 0;
      HandleOutput([LF]);
    }

    method HandleVerticalTab()
      modifies this
      ensures View() == Step(old(View()), VT, tabWidth) && tabWidth == old(tabWidth)
    {
      HandleLinefeed();
    }

    method HandleFormFeed()
      modifies this
      ensures View() == Step(old(View()), FF, tabWidth) && tabWidth == old(tabWidth)
    {
      FlushCurrentLine();
      lineBuffer := [];
      columnPosition := 0;
      HandleOutput([FF]);
    }

    method HandleCarriageReturn()
      modifies this
      ensures View() == Step(old(View()), CR, tabWidth) && tabWidth == old(tabWidth)
    {
      columnPosition := 0;
      HandleOutput([CR]);
    }

    method HandleSubstitute()
      modifies this
      ensures View() == Step(old(View()), SUB, tabWidth) && tabWidth == old(tabWidth)
    {
      currentLine := currentLine + ['^'];
      currentLine := currentLine + ['Z'];
      columnPosition := columnPosition + 2;
      HandleOutput([SUB]);
    }

    method HandleEscape()
      modifies this
      ensures View() == Step(old(View()), ESC, tabWidth) && tabWidth == old(tabWidth)
    {
      HandleOutput([ESC]);
    }

    method HandleDelete()
      modifies this
      ensures View() == Step(old(View()), DEL, tabWidth) && tabWidth == old(tabWidth)
    {
      if currentLine != "" {
        currentLine := currentLine[..|currentLine| - 1];
        columnPosition := if columnPosition == 0 then 0 else columnPosition - 1;
      }
      HandleOutput([DEL]);
    }

    method HandlePrintable(b: byte)
      requires Printable(b)
      modifies this
      ensures View() == Step(old(View()), b, tabWidth) && tabWidth == old(tabWidth)
    {
      var c := b as char;
      currentLine := currentLine + [c];
      columnPosition := columnPosition + 1;
      if c == ' ' {
        wordBuffer := "";
      } else {
        wordBuffer := wordBuffer + [c];
      }
      HandleOutput([b]);
    }

    method HandleInvalidByte(b: byte)
      requires !Printable(b) && b !in {BEL, BS, HT, LF, VT, FF, CR, SUB, ESC, DEL}
      modifies this
      ensures View() == Step(old(View()), b, tabWidth) && tabWidth == old(tabWidth)
    {
      currentLine := currentLine + ['?'];
      columnPosition := columnPosition + 1;
      HandleOutput([b]);
    }

    method FlushCurrentLine()
      modifies this
      ensures View() == Flush(old(View())) && tabWidth == old(tabWidth)
    {
      if currentLine != "" {
        lineBuffer := lineBuffer + [currentLine];
        currentLine := "";
        wordBuffer := "";
      }
    }

    /** Back to a fresh parser; what was handed on stays handed on. */
    method Clear()
      modifies this
      ensures View() == Fresh(old(output)) && tabWidth == old(tabWidth)
    {
      lineBuffer, currentLine, wordBuffer := [], "", "";
      columnPosition := 0;
    }
  }
}
