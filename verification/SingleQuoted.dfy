/** Single-quoted scalars of the YAML library: what the emitter writes
    (emitter.c) and what the scanner makes of it (scanner.c), over code points. */
module SingleQuoted {
  import opened Options

  type Rune = nat

  const NUL: Rune := 0
  const TAB: Rune := 9
  const LF: Rune := 10
  const CR: Rune := 13
  const SPACE: Rune := 32
  const QUOTE: Rune := 39
  const DASH: Rune := 45
  const DOT: Rune := 46
  const NEL: Rune := 0x85
  const LS: Rune := 0x2028
  const PS: Rune := 0x2029

  /** The code point at a place, or NUL behind the end. */
  function At(t: seq<Rune>, i: nat): Rune {
    if i < |t| then t[i] else NUL
  }

  predicate IsBlank(c: Rune) {
    c == SPACE || c == TAB
  }

  predicate IsBreak(c: Rune) {
    c == CR || c == LF || c == NEL || c == LS || c == PS
  }

  predicate IsBlankZ(c: Rune) {
    IsBlank(c) || IsBreak(c) || c == NUL
  }

  /** "---" or "..." and then a blank. */
  predicate DocumentIndicator(t: seq<Rune>) {
    && ((At(t, 0) == DASH && At(t, 1) == DASH && At(t, 2) == DASH) || (At(t, 0) == DOT && At(t, 1) == DOT && At(t, 2) == DOT))
    && IsBlankZ(At(t, 3))
  }

  /** READ_LINE: how much of the text a line break takes, and what it stands for. */
  function LineBreak(t: seq<Rune>): (r: (nat, Rune))
    requires t != [] && IsBreak(t[0])
    ensures 0 < r.0 <= |t|
  {
    if t[0] == CR && At(t, 1) == LF then (2, LF)
    else if t[0] == LS || t[0] == PS then (1, t[0])
    else (1, LF)
  }

  /** Where the scanner is in a scalar: before a check of the line, in the text, or
      in blanks, with the blanks and breaks that it has collected. */
  datatype Phase = Top | Text | Blanks(leading: bool, spaces: seq<Rune>, first: seq<Rune>, more: seq<Rune>)

  /** What blanks and breaks come to: breaks are folded. */
  function Fold(p: Phase): seq<Rune> {
    match p
    case Blanks(true, _, first, more) =>
      if At(first, 0) == LF then (if more == [] then [SPACE] else more) else first + more
    case Blanks(false, spaces, _, _) => spaces
    case _ => []
  }

  function Rank(c: Rune, p: Phase): nat {
    if IsBlank(c) || IsBreak(c) then (if p.Top? then 2 else if p.Text? then 1 else 0)
    else if c == NUL then (if p.Text? then 2 else if p.Blanks? then 1 else 0)
    else (if p.Blanks? then 2 else if p.Top? then 1 else 0)
  }

  /** What yaml_parser_scan_flow_scalar makes of the text `t` after the opening
      quote: the value, and the text after the closing quote. */
  function Scan(t: seq<Rune>, column: nat, value: seq<Rune>, p: Phase): Option<(seq<Rune>, seq<Rune>)>
    decreases |t|, Rank(At(t, 0), p)
  {
    var c := At(t, 0);
    match p
    case Top =>
      if column == 0 && DocumentIndicator(t) then None
      else if c == NUL then None
      else Scan(t, column, value, Text)
    case Text =>
      if IsBlankZ(c) then Scan(t, column, value, Blanks(false, [], [], []))
      else if c == QUOTE && At(t, 1) == QUOTE then Scan(t[2..], column + 2, value + [QUOTE], Text)
      else if c == QUOTE then Some((value, t[1..]))
      else Scan(t[1..], column + 1, value + [c], Text)
    case Blanks(leading, spaces, first, more) =>
      if IsBlank(c) then
        Scan(t[1..], column + 1, value, if leading then p else Blanks(false, spaces + [c], first, more))
      else if IsBreak(c) then
        var (n, b) := LineBreak(t);
        if leading then Scan(t[n..], 0, value, Blanks(true, spaces, first, more + [b]))
        else Scan(t[n..], 0, value, Blanks(true, [], first + [b], more))
      else Scan(t, column, value + Fold(p), Top)
  }

  /** yaml_break_t */
  datatype Break = CrBreak | LnBreak | CrLnBreak

  function BreakRunes(b: Break): seq<Rune> {
    match b
    case CrBreak => [CR]
    case LnBreak => [LF]
    case CrLnBreak => [CR, LF]
  }

  datatype Style = Style(allowBreaks: bool, width: int, indent: nat, lineBreak: Break)

  /** The state of the emitter while it writes a scalar. */
  datatype Writer = Writer(column: nat, spaces: bool, breaks: bool, indention: bool, whitespace: bool)

  function Spaces(n: nat): seq<Rune> {
    seq(n, i requires 0 <= i < n => SPACE)
  }

  /** yaml_emitter_write_indent */
  function Indent(o: Style, w: Writer): (seq<Rune>, Writer) {
    var newLine := !w.indention || w.column > o.indent || (w.column == o.indent && !w.whitespace);
    var column := if newLine then 0 else w.column;
    var n := if column < o.indent then o.indent - column else 0;
    ((if newLine then BreakRunes(o.lineBreak) else []) + Spaces(n),
     w.(column := column + n, indention := true, whitespace := true))
  }

  /** Whether the space at `i` becomes the end of a line. */
  predicate Folds(v: seq<Rune>, i: nat, o: Style, w: Writer) {
    o.allowBreaks && !w.spaces && w.column > o.width && i != 0 && i + 1 != |v| && At(v, i + 1) != SPACE
  }

  /** What is written for one code point of the value. */
  function WriteOne(v: seq<Rune>, i: nat, o: Style, w: Writer): (seq<Rune>, Writer)
    requires i < |v|
  {
    var c := v[i];
    var br := BreakRunes(o.lineBreak);
    if c == SPACE then
      if Folds(v, i, o, w) then
        var (text, w') := Indent(o, w);
        (text, w'.(spaces := true))
      else ([SPACE], w.(column := w.column + 1, spaces := true))
    else if IsBreak(c) then
      ((if !w.breaks && c == LF then br else []) + (if c == LF then br else [c]),
       w.(column := 0, indention := true, breaks := true))
    else
      var (text, w') := if w.breaks then Indent(o, w) else ([], w);
      (text + (if c == QUOTE then [QUOTE] else []) + [c],
       w'.(column := w'.column + (if c == QUOTE then 2 else 1), indention := false, spaces := false, breaks := false))
  }

  /** The rest of the scalar, up to and with the closing quote. */
  function WriteFrom(v: seq<Rune>, i: nat, o: Style, w: Writer): seq<Rune>
    requires i <= |v|
    decreases |v| - i
  {
    if i == |v| then (if w.breaks then Indent(o, w).0 else []) + [QUOTE]
    else
      var (text, w') := WriteOne(v, i, o, w);
      text + WriteFrom(v, i + 1, o, w')
  }

  /** A printable ASCII code point or a line feed. */
  predicate Plain(c: Rune) {
    c == LF || 32 <= c <= 126
  }

  /** The values that analyze_scalar lets be single-quoted, unicode being off. */
  predicate Quotable(v: seq<Rune>) {
    && (forall i :: 0 <= i < |v| ==> Plain(v[i]))
    && (forall i {:trigger v[i]} :: 0 <= i < |v| - 1 && v[i] == SPACE ==> v[i + 1] != LF)
    && (forall i {:trigger v[i]} :: 0 <= i < |v| - 1 && v[i] == LF ==> v[i + 1] != SPACE)
  }

  lemma {:induction false} SkipSpaces(n: nat, t: seq<Rune>, column: nat, value: seq<Rune>, p: Phase)
    requires p.Blanks? && p.leading
    ensures Scan(Spaces(n) + t, column, value, p) == Scan(t, column + n, value, p)
    decreases n
  {
    if n == 0 {
      assert Spaces(n) + t == t;
    } else {
      assert (Spaces(n) + t)[0] == SPACE && (Spaces(n) + t)[1..] == Spaces(n - 1) + t;
      SkipSpaces(n - 1, t, column + 1, value, p);
    }
  }

  /** The phase after one line feed. */
  function Broken(p: Phase): Phase
    requires p.Blanks?
  {
    if p.leading then Blanks(true, p.spaces, p.first, p.more + [LF]) else Blanks(true, [], p.first + [LF], p.more)
  }

  /** A written line break reads as one line feed, unless it is a carriage return
      that a line feed follows. */
  lemma {:induction false} ReadBreak(b: Break, t: seq<Rune>, column: nat, value: seq<Rune>, p: Phase)
    requires p.Blanks? && (b.CrBreak? ==> At(t, 0) != LF)
    ensures Scan(BreakRunes(b) + t, column, value, p) == Scan(t, 0, value, Broken(p))
  {
    var s := BreakRunes(b) + t;
    assert b.CrLnBreak? ==> s[1] == LF && s[2..] == t;
    assert !b.CrLnBreak? ==> s[1..] == t && At(s, 1) == At(t, 0);
    assert LineBreak(s) == (|BreakRunes(b)|, LF);
  }

  /** From the text into blanks. */
  lemma {:induction false} IntoBlanks(t: seq<Rune>, column: nat, value: seq<Rune>)
    requires IsBlankZ(At(t, 0))
    ensures Scan(t, column, value, Text) == Scan(t, column, value, Blanks(false, [], [], []))
  {
  }

  /** From blanks back into the text, not at the start of a line. */
  lemma {:induction false} IntoText(t: seq<Rune>, column: nat, value: seq<Rune>, p: Phase)
    requires !IsBlankZ(At(t, 0)) && column > 0 && p.Blanks?
    ensures Scan(t, column, value, p) == Scan(t, column, value + Fold(p), Text)
  {
    assert Scan(t, column, value, p) == Scan(t, column, value + Fold(p), Top);
  }

  /** A code point that is not blank, with a quote doubled. */
  lemma {:induction false} ReadText(c: Rune, t: seq<Rune>, column: nat, value: seq<Rune>)
    requires !IsBlankZ(c)
    ensures Scan((if c == QUOTE then [QUOTE] else []) + [c] + t, column, value, Text) ==
            Scan(t, column + (if c == QUOTE then 2 else 1), value + [c], Text)
  {
    var s := (if c == QUOTE then [QUOTE] else []) + [c] + t;
    if c == QUOTE {
      assert s[0] == s[1] == QUOTE && s[2..] == t;
    } else {
      assert s[0] == c && s[1..] == t;
    }
  }

  /** How far emitter and scanner have come when the emitter has written `v[..i]`. */
  ghost predicate Along(v: seq<Rune>, i: nat, o: Style, w: Writer, value: seq<Rune>, p: Phase, column: nat) {
    && i <= |v| && !p.Top? && value + Fold(p) == v[..i] && o.indent > 0
    && !(w.spaces && w.breaks)
    && (w.spaces ==> i > 0 && v[i - 1] == SPACE)
    && (w.breaks ==> i > 0 && v[i - 1] == LF)
    && if w.breaks then
         p.Blanks? && p.leading && p.first == [LF] && p.more != [] && w.column == 0 && w.indention
       else if w.spaces then
         p.Blanks? && column > 0 &&
         if p.leading then p.first == [LF] && p.more == [] && i < |v| && v[i] != SPACE && v[i] != LF
         else p.first == [] && p.more == []
       else
         p.Text? && column > 0 && !w.indention
  }

  /** A space that stays a space. */
  lemma {:induction false} StepSpace(v: seq<Rune>, i: nat, o: Style, w: Writer, value: seq<Rune>, p: Phase, column: nat, t: seq<Rune>)
    returns (p': Phase, column': nat)
    requires Quotable(v) && Along(v, i, o, w, value, p, column) && i < |v| && v[i] == SPACE && !Folds(v, i, o, w)
    ensures Along(v, i + 1, o, WriteOne(v, i, o, w).1, value, p', column')
    ensures Scan(WriteOne(v, i, o, w).0 + t, column, value, p) == Scan(t, column', value, p')
  {
    var s := [SPACE] + t;
    assert s[1..] == t && v[..i + 1] == v[..i] + [SPACE];
    if p.Text? {
      IntoBlanks(s, column, value);
      p' := Blanks(false, [] + [SPACE], [], []);
    } else {
      p' := Blanks(false, p.spaces + [SPACE], [], []);
    }
    column' := column + 1;
  }

  /** A space that becomes the end of a line. */
  lemma {:induction false} StepFold(v: seq<Rune>, i: nat, o: Style, w: Writer, value: seq<Rune>, p: Phase, column: nat, t: seq<Rune>)
    returns (p': Phase, column': nat)
    requires Quotable(v) && Along(v, i, o, w, value, p, column) && i < |v| && v[i] == SPACE && Folds(v, i, o, w)
    ensures Along(v, i + 1, o, WriteOne(v, i, o, w).1, value, p', column')
    ensures Scan(WriteOne(v, i, o, w).0 + t, column, value, p) == Scan(t, column', value, p')
  {
    var br, indent := BreakRunes(o.lineBreak), Spaces(o.indent) + t;
    assert WriteOne(v, i, o, w).0 + t == br + indent && v[..i + 1] == v[..i] + [SPACE];
    IntoBlanks(br + indent, column, value);
    ReadBreak(o.lineBreak, indent, column, value, Blanks(false, [], [], []));
    p', column' := Blanks(true, [], [] + [LF], []), o.indent;
    SkipSpaces(o.indent, t, 0, value, p');
  }

  /** A line feed: the first one in a row is written twice. */
  lemma {:induction false} StepBreak(v: seq<Rune>, i: nat, o: Style, w: Writer, value: seq<Rune>, p: Phase, column: nat, t: seq<Rune>)
    returns (p': Phase)
    requires Quotable(v) && Along(v, i, o, w, value, p, column) && i < |v| && v[i] == LF
    requires o.lineBreak.CrBreak? ==> At(t, 0) != LF
    ensures Along(v, i + 1, o, WriteOne(v, i, o, w).1, value, p', 0)
    ensures Scan(WriteOne(v, i, o, w).0 + t, column, value, p) == Scan(t, 0, value, p')
  {
    var br := BreakRunes(o.lineBreak);
    assert v[..i + 1] == v[..i] + [LF];
    if p.Text? {
      assert WriteOne(v, i, o, w).0 + t == br + (br + t);
      IntoBlanks(br + (br + t), column, value);
      ReadBreak(o.lineBreak, br + t, column, value, Blanks(false, [], [], []));
      p' := Blanks(true, [], [] + [LF], []);
      ReadBreak(o.lineBreak, t, 0, value, p');
      p' := Broken(p');
    } else {
      assert [] + br == br;
      ReadBreak(o.lineBreak, t, column, value, p);
      p' := Broken(p);
    }
  }

  /** The text at the start of a line, or in a line. */
  lemma {:induction false} StepIndent(v: seq<Rune>, i: nat, o: Style, w: Writer, value: seq<Rune>, p: Phase, column: nat, t: seq<Rune>)
    returns (column': nat)
    requires Along(v, i, o, w, value, p, column) && !IsBlankZ(At(t, 0))
    ensures column' > 0
    ensures Scan((if w.breaks then Indent(o, w).0 else []) + t, column, value, p) == Scan(t, column', v[..i], Text)
  {
    if w.breaks {
      assert Indent(o, w).0 == [] + Spaces(o.indent) == Spaces(o.indent);
      SkipSpaces(o.indent, t, column, value, p);
      IntoText(t, column + o.indent, value, p);
      column' := column + o.indent;
    } else {
      assert [] + t == t && value + [] == value;
      if p.Blanks? {
        IntoText(t, column, value, p);
      }
      column' := column;
    }
  }

  /** A code point that is not blank. */
  lemma {:induction false} StepText(v: seq<Rune>, i: nat, o: Style, w: Writer, value: seq<Rune>, p: Phase, column: nat, t: seq<Rune>)
    returns (column': nat)
    requires Quotable(v) && Along(v, i, o, w, value, p, column) && i < |v| && v[i] != SPACE && v[i] != LF
    ensures Along(v, i + 1, o, WriteOne(v, i, o, w).1, v[..i + 1], Text, column')
    ensures Scan(WriteOne(v, i, o, w).0 + t, column, value, p) == Scan(t, column', v[..i + 1], Text)
  {
    var c := v[i];
    assert Plain(c) && v[..i + 1] == v[..i] + [c];
    var piece := (if c == QUOTE then [QUOTE] else []) + [c] + t;
    assert WriteOne(v, i, o, w).0 + t == (if w.breaks then Indent(o, w).0 else []) + piece;
    var middle := StepIndent(v, i, o, w, value, p, column, piece);
    ReadText(c, t, middle, v[..i]);
    column' := middle + if c == QUOTE then 2 else 1;
  }

  /** After a written line feed there is never a bare line feed. */
  lemma {:induction false} AfterBreak(v: seq<Rune>, i: nat, o: Style, w: Writer, rest: seq<Rune>)
    requires Quotable(v) && i <= |v| && i > 0 && v[i - 1] == LF && w.breaks && w.column == 0 && w.indention && o.indent > 0
    requires o.lineBreak.CrBreak?
    ensures At(WriteFrom(v, i, o, w) + rest, 0) != LF
  {
    var t := WriteFrom(v, i, o, w) + rest;
    if i == |v| || v[i] != LF {
      assert Indent(o, w).0 == [] + Spaces(o.indent);
      assert t[0] == SPACE;
    } else {
      assert WriteOne(v, i, o, w).0 == [] + [CR];
      assert t[0] == CR;
    }
  }

  lemma {:induction false} BeforeBreak(v: seq<Rune>, i: nat, o: Style, w: Writer, value: seq<Rune>, p: Phase, column: nat, rest: seq<Rune>)
    requires Quotable(v) && Along(v, i, o, w, value, p, column) && i < |v|
    ensures v[i] == LF && o.lineBreak.CrBreak? ==> At(WriteFrom(v, i + 1, o, WriteOne(v, i, o, w).1) + rest, 0) != LF
  {
    if v[i] == LF && o.lineBreak.CrBreak? {
      AfterBreak(v, i + 1, o, WriteOne(v, i, o, w).1, rest);
    }
  }

  /** One code point, written and read. */
  lemma {:induction false} OneStep(v: seq<Rune>, i: nat, o: Style, w: Writer, value: seq<Rune>, p: Phase, column: nat, t: seq<Rune>)
    returns (value': seq<Rune>, p': Phase, column': nat)
    requires Quotable(v) && Along(v, i, o, w, value, p, column) && i < |v|
    requires v[i] == LF && o.lineBreak.CrBreak? ==> At(t, 0) != LF
    ensures Along(v, i + 1, o, WriteOne(v, i, o, w).1, value', p', column')
    ensures Scan(WriteOne(v, i, o, w).0 + t, column, value, p) == Scan(t, column', value', p')
  {
    hide Scan, WriteOne, Along, Quotable, Folds;
    value', column' := value, 0;
    if v[i] == SPACE {
      if Folds(v, i, o, w) {
        p', column' := StepFold(v, i, o, w, value, p, column, t);
      } else {
        p', column' := StepSpace(v, i, o, w, value, p, column, t);
      }
    } else if v[i] == LF {
      p' := StepBreak(v, i, o, w, value, p, column, t);
    } else {
      value', p' := v[..i + 1], Text;
      column' := StepText(v, i, o, w, value, p, column, t);
    }
  }

  /** What is written reads as the value. */
  lemma {:induction false} Reads(v: seq<Rune>, i: nat, o: Style, w: Writer, value: seq<Rune>, p: Phase, column: nat, rest: seq<Rune>)
    requires Quotable(v) && Along(v, i, o, w, value, p, column) && At(rest, 0) != QUOTE
    ensures Scan(WriteFrom(v, i, o, w) + rest, column, value, p) == Some((v, rest))
    decreases |v| - i
  {
    if i == |v| {
      var t := [QUOTE] + rest;
      assert WriteFrom(v, i, o, w) + rest == (if w.breaks then Indent(o, w).0 else []) + t;
      var column' := StepIndent(v, i, o, w, value, p, column, t);
      assert v[..i] == v && t[1..] == rest && At(t, 1) == At(rest, 0);
    } else {
      var (text, w') := WriteOne(v, i, o, w);
      var t := WriteFrom(v, i + 1, o, w') + rest;
      assert WriteFrom(v, i, o, w) + rest == text + t;
      hide Scan, WriteFrom, WriteOne, Along, Quotable;
      BeforeBreak(v, i, o, w, value, p, column, rest);
      var value', p', column' := OneStep(v, i, o, w, value, p, column, t);
      Reads(v, i + 1, o, w', value', p', column', rest);
    }
  }

  /** A value that may be single-quoted comes back, at any column and width, with
      any kind of line break, as long as no quote follows. */
  lemma {:induction false} RoundTrip(v: seq<Rune>, o: Style, column: nat, scanColumn: nat, rest: seq<Rune>)
    requires Quotable(v) && o.indent > 0 && scanColumn > 0 && At(rest, 0) != QUOTE
    ensures Scan(WriteFrom(v, 0, o, Writer(column, false, false, false, false)) + rest, scanColumn, [], Top) == Some((v, rest))
  {
    var w := Writer(column, false, false, false, false);
    var t := WriteFrom(v, 0, o, w) + rest;
    StartsWithText(v, o, w);
    assert Scan(t, scanColumn, [], Top) == Scan(t, scanColumn, [], Text);
    Reads(v, 0, o, w, [], Text, scanColumn, rest);
  }

  lemma {:induction false} StartsWithText(v: seq<Rune>, o: Style, w: Writer)
    requires Quotable(v)
    ensures WriteFrom(v, 0, o, w) != [] && WriteFrom(v, 0, o, w)[0] != NUL
  {
    if v == [] {
      assert WriteFrom(v, 0, o, w) == (if w.breaks then Indent(o, w).0 else []) + [QUOTE];
    } else {
      assert Plain(v[0]);
      var (text, w') := WriteOne(v, 0, o, w);
      assert text[0] != NUL;
    }
  }

  // ---------------------------------------------------------------------
  // What any text between quotes stands for: section 9.1.2 of YAML 1.1
  // ---------------------------------------------------------------------

  /** The lines of a quoted scalar, with the breaks behind them. */
  datatype Lines = Last(line: seq<Rune>) | Line(line: seq<Rune>, brk: seq<Rune>, rest: Lines)

  predicate IsBreakText(b: seq<Rune>) {
    b == [CR] || b == [LF] || b == [CR, LF] || b == [NEL] || b == [LS] || b == [PS]
  }

  /** Line and paragraph separators stay what they are, all others are line feeds. */
  function Normal(b: seq<Rune>): Rune {
    if b == [LS] || b == [PS] then b[0] else LF
  }

  predicate Clean(l: seq<Rune>) {
    forall i :: 0 <= i < |l| ==> !IsBreak(l[i]) && l[i] != NUL
  }

  /** No line has breaks in it, and no carriage return is apart from its line feed. */
  predicate Proper(ls: Lines) {
    match ls
    case Last(l) => Clean(l)
    case Line(l, b, r) => Clean(l) && IsBreakText(b) && Proper(r) && !(b == [CR] && r.Line? && r.line == [] && r.brk == [LF])
  }

  /** Each quote is written twice. */
  function Quoted(l: seq<Rune>): seq<Rune> {
    if l == [] then [] else (if l[0] == QUOTE then [QUOTE] else []) + [l[0]] + Quoted(l[1..])
  }

  function Written(ls: Lines): seq<Rune> {
    match ls
    case Last(l) => Quoted(l)
    case Line(l, b, r) => Quoted(l) + b + Written(r)
  }

  function TrimStart(l: seq<Rune>): (r: seq<Rune>)
    ensures |r| <= |l| && r == l[|l| - |r|..] && (r != [] ==> !IsBlank(r[0]))
  {
    if l != [] && IsBlank(l[0]) then TrimStart(l[1..]) else l
  }

  function TrimEnd(l: seq<Rune>): (r: seq<Rune>)
    ensures r <= l && (r != [] ==> !IsBlank(r[|r| - 1]))
  {
    if l != [] && IsBlank(l[|l| - 1]) then TrimEnd(l[..|l| - 1]) else l
  }

  /** Breaks with nothing but blanks around them: one line feed becomes a space, and of
      more than one the first goes, if it is a line feed. */
  function Joined(bs: seq<Rune>): seq<Rune>
    requires bs != []
  {
    if bs[0] != LF then bs else if |bs| == 1 then [SPACE] else bs[1..]
  }

  /** The value from some breaks on. */
  function Behind(bs: seq<Rune>, ls: Lines): seq<Rune>
    requires bs != []
    decreases ls
  {
    match ls
    case Last(l) => Joined(bs) + TrimStart(l)
    case Line(l, b, r) =>
      if TrimStart(l) == [] then Behind(bs + [Normal(b)], r)
      else Joined(bs) + TrimEnd(TrimStart(l)) + Behind([Normal(b)], r)
  }

  /** The value of a quoted scalar: blanks around breaks are dropped, and breaks folded;
      all other blanks stay what they are. */
  function Value(ls: Lines): seq<Rune> {
    match ls
    case Last(l) => l
    case Line(l, b, r) => TrimEnd(l) + Behind([Normal(b)], r)
  }

  /** A line that begins with a document indicator. */
  predicate Indicates(l: seq<Rune>, last: bool) {
    && |l| >= 3 && (l[..3] == [DASH, DASH, DASH] || l[..3] == [DOT, DOT, DOT])
    && if |l| > 3 then IsBlank(l[3]) else !last
  }

  /** No line, apart from one that begins with the quote, begins with a document indicator. */
  predicate NoneIndicates(ls: Lines) {
    match ls
    case Last(l) => !Indicates(l, true)
    case Line(l, _, r) => !Indicates(l, false) && NoneIndicates(r)
  }

  predicate Sound(ls: Lines) {
    ls.Line? ==> NoneIndicates(ls.rest)
  }

  /** The text ends with the closing quote. */
  predicate Closed(u: seq<Rune>) {
    At(u, 0) == QUOTE && At(u, 1) != QUOTE
  }

  /** Where the lines stop: at the closing quote, or at the end of the text. */
  predicate Stops(u: seq<Rune>) {
    Closed(u) || At(u, 0) == NUL
  }

  /** What there is to scan: the value and what is behind it, or nothing. */
  function Outcome(value: seq<Rune>, sound: bool, u: seq<Rune>): Option<(seq<Rune>, seq<Rune>)> {
    if sound && Closed(u) then Some((value, u[1..])) else None
  }

  /** The phase behind some breaks. */
  function Folding(bs: seq<Rune>): (p: Phase)
    requires bs != []
    ensures p.Blanks? && p.leading
  {
    Blanks(true, [], [bs[0]], bs[1..])
  }

  lemma {:induction false} SkipBlank(c: Rune, t: seq<Rune>, column: nat, value: seq<Rune>, p: Phase)
    requires p.Blanks? && p.leading && IsBlank(c)
    ensures Scan([c] + t, column, value, p) == Scan(t, column + 1, value, p)
  {
    assert ([c] + t)[1..] == t;
  }

  /** Blanks at the start of a line are skipped. */
  lemma {:induction false} SkipBlanks(l: seq<Rune>, t: seq<Rune>, column: nat, value: seq<Rune>, p: Phase)
    requires p.Blanks? && p.leading
    ensures Scan(Quoted(l) + t, column, value, p) ==
            Scan(Quoted(TrimStart(l)) + t, column + |l| - |TrimStart(l)|, value, p)
    decreases |l|
  {
    hide Scan, Quoted;
    if l != [] && IsBlank(l[0]) {
      QuotedFirst(l);
      assert Quoted(l) + t == [l[0]] + (Quoted(l[1..]) + t);
      SkipBlank(l[0], Quoted(l[1..]) + t, column, value, p);
      SkipBlanks(l[1..], t, column + 1, value, p);
    }
  }

  /** Any line break in blanks. */
  lemma {:induction false} ReadAnyBreak(b: seq<Rune>, t: seq<Rune>, column: nat, value: seq<Rune>, p: Phase)
    requires p.Blanks? && IsBreakText(b) && (b == [CR] ==> At(t, 0) != LF)
    ensures Scan(b + t, column, value, p) ==
            Scan(t, 0, value, if p.leading then Blanks(true, p.spaces, p.first, p.more + [Normal(b)])
                              else Blanks(true, [], p.first + [Normal(b)], p.more))
  {
    var s := b + t;
    assert |b| == 1 ==> s[1..] == t && At(s, 1) == At(t, 0);
    assert |b| == 2 ==> s[1] == LF && s[2..] == t;
    assert LineBreak(s) == (|b|, Normal(b));
  }

  /** The phase in a line, with the blanks that have been read last. */
  function Between(spaces: seq<Rune>): Phase {
    if spaces == [] then Text else Blanks(false, spaces, [], [])
  }

  function TailBlanks(l: seq<Rune>): seq<Rune> {
    l[|TrimEnd(l)|..]
  }

  /** The text of a line is read as it is; blanks are kept apart until it is known
      whether the line ends with them. */
  lemma {:induction false} ReadLineText(l: seq<Rune>, t: seq<Rune>, column: nat, value: seq<Rune>, done: seq<Rune>)
    requires Clean(l) && column > 0
    ensures Scan(Quoted(l) + t, column, value + TrimEnd(done), Between(TailBlanks(done))) ==
            Scan(t, column + |Quoted(l)|, value + TrimEnd(done + l), Between(TailBlanks(done + l)))
    decreases |l|
  {
    hide Scan, Quoted, TrimEnd;
    if l == [] {
      assert Quoted(l) + t == t by { QuotedNone(); }
      assert done + l == done;
    } else {
      var c := l[0];
      var more := Quoted(l[1..]) + t;
      QuotedFirst(l);
      assert Quoted(l) + t == ((if c == QUOTE then [QUOTE] else []) + [c]) + more;
      ReadRune(c, more, column, value, done);
      ReadLineText(l[1..], t, column + |Quoted(l)| - |Quoted(l[1..])|, value, done + [c]);
      assert done + [c] + l[1..] == done + l;
    }
  }

  lemma {:induction false} QuotedNone()
    ensures Quoted([]) == []
  {
  }

  lemma {:induction false} QuotedFirst(l: seq<Rune>)
    requires l != []
    ensures Quoted(l) == (if l[0] == QUOTE then [QUOTE] else []) + [l[0]] + Quoted(l[1..])
  {
  }

  /** One code point of a line. */
  lemma {:induction false} ReadRune(c: Rune, t: seq<Rune>, column: nat, value: seq<Rune>, done: seq<Rune>)
    requires !IsBreak(c) && c != NUL && column > 0
    ensures Scan((if c == QUOTE then [QUOTE] else []) + [c] + t, column, value + TrimEnd(done), Between(TailBlanks(done))) ==
            Scan(t, column + (if c == QUOTE then 2 else 1), value + TrimEnd(done + [c]), Between(TailBlanks(done + [c])))
  {
    hide Scan, TrimEnd, TailBlanks;
    var v, spaces := value + TrimEnd(done), TailBlanks(done);
    OneMore(done, c);
    if IsBlank(c) {
      ReadBlank(c, t, column, v, spaces);
      assert [] + [c] + t == [c] + t;
    } else {
      if spaces != [] {
        IntoText((if c == QUOTE then [QUOTE] else []) + [c] + t, column, v, Blanks(false, spaces, [], []));
      }
      ReadText(c, t, column, v + spaces);
      assert v + spaces + [c] == value + (done + [c]);
      assert v + [] == v;
    }
  }

  lemma {:induction false} OneMore(done: seq<Rune>, c: Rune)
    ensures TrimEnd(done) + TailBlanks(done) == done
    ensures if IsBlank(c) then TrimEnd(done + [c]) == TrimEnd(done) && TailBlanks(done + [c]) == TailBlanks(done) + [c]
            else TrimEnd(done + [c]) == done + [c] && TailBlanks(done + [c]) == []
  {
    assert (done + [c])[..|done|] == done;
  }

  lemma {:induction false} ReadBlank(c: Rune, t: seq<Rune>, column: nat, value: seq<Rune>, spaces: seq<Rune>)
    requires IsBlank(c)
    ensures Scan([c] + t, column, value, Between(spaces)) == Scan(t, column + 1, value, Between(spaces + [c]))
  {
    var s := [c] + t;
    assert s[1..] == t;
    if spaces == [] {
      IntoBlanks(s, column, value);
    }
    assert Scan(s, column, value, Blanks(false, spaces, [], [])) == Scan(t, column + 1, value, Blanks(false, spaces + [c], [], []));
  }

  /** The end of the text, from inside a line, or behind breaks. */
  lemma {:induction false} ReadEnd(u: seq<Rune>, column: nat, value: seq<Rune>, p: Phase)
    requires Stops(u) && !p.Top?
    ensures Scan(u, column, value, p) == Outcome(value + Fold(p), true, u)
  {
    if p.Blanks? {
      assert Scan(u, column, value, p) == Scan(u, column, value + Fold(p), Top);
    } else {
      assert value + [] == value;
      if At(u, 0) == NUL {
        IntoBlanks(u, column, value);
        assert Scan(u, column, value, Blanks(false, [], [], [])) == Scan(u, column, value + [], Top);
      }
    }
  }

  /** A line break behind the text of a line. */
  lemma {:induction false} ReadLineEnd(b: seq<Rune>, t: seq<Rune>, column: nat, value: seq<Rune>, spaces: seq<Rune>)
    requires IsBreakText(b) && (b == [CR] ==> At(t, 0) != LF)
    ensures Scan(b + t, column, value, Between(spaces)) == Scan(t, 0, value, Blanks(true, [], [Normal(b)], []))
  {
    hide Scan;
    if spaces == [] {
      IntoBlanks(b + t, column, value);
    }
    ReadAnyBreak(b, t, column, value, Blanks(false, spaces, [], []));
    assert [] + [Normal(b)] == [Normal(b)];
  }

  /** The first code point of the next line, where a carriage return has come before. */
  lemma {:induction false} NotSplit(ls: Lines, u: seq<Rune>)
    requires Proper(ls) && Stops(u) && !(ls.Line? && ls.line == [] && ls.brk == [LF])
    ensures At(Written(ls) + u, 0) != LF
  {
    if ls.line != [] {
      QuotedFirst(ls.line);
      assert !IsBreak(ls.line[0]);
    }
  }

  /** As long as there is no quote, a line is written as it is. */
  lemma {:induction false} QuotedAt(l: seq<Rune>, t: seq<Rune>, k: nat)
    requires k <= |l| && forall i :: 0 <= i < k ==> l[i] != QUOTE
    ensures At(Quoted(l) + t, k) == if k < |l| then l[k] else At(t, 0)
    decreases k
  {
    if l == [] {
      assert Quoted(l) + t == t;
    } else {
      QuotedFirst(l);
      if k > 0 {
        QuotedAt(l[1..], t, k - 1);
        assert Quoted(l) + t == [l[0]] + (Quoted(l[1..]) + t);
      }
    }
  }

  lemma {:induction false} IndicatorIs(l: seq<Rune>, t: seq<Rune>, quoted: bool)
    requires Clean(l) && if quoted then At(t, 0) == QUOTE else IsBreak(At(t, 0)) || At(t, 0) == NUL
    ensures DocumentIndicator(Quoted(l) + t) <==> Indicates(l, quoted)
  {
    hide Quoted;
    QuotedAt(l, t, 0);
    if l != [] && (l[0] == DASH || l[0] == DOT) {
      QuotedAt(l, t, 1);
      if |l| > 1 && l[1] == l[0] {
        QuotedAt(l, t, 2);
        if |l| > 2 && l[2] == l[0] {
          QuotedAt(l, t, 3);
          assert l[..3] == [l[0], l[1], l[2]];
        }
      }
    }
  }

  /** Behind breaks the text of a line begins, unless it is a document indicator. */
  lemma {:induction false} BeginLine(l: seq<Rune>, t: seq<Rune>, value: seq<Rune>, bs: seq<Rune>, quoted: bool, blanks: nat)
    requires Clean(l) && l != [] && !IsBlank(l[0]) && bs != []
    requires if quoted then At(t, 0) == QUOTE else IsBreak(At(t, 0)) || At(t, 0) == NUL
    ensures Scan(Quoted(l) + t, blanks, value, Folding(bs)) ==
            if blanks == 0 && Indicates(l, quoted) then None
            else Scan(Quoted(l) + t, blanks, value + Joined(bs), Text)
  {
    var s, p := Quoted(l) + t, Folding(bs);
    QuotedFirst(l);
    assert s[0] == l[0] && !IsBlankZ(s[0]);
    IndicatorIs(l, t, quoted);
    JoinedIs(bs);
    assert Scan(s, blanks, value, p) == Scan(s, blanks, value + Joined(bs), Top);
  }

  /** A line behind breaks, with a text in it. */
  lemma {:induction false} ReadLine(l: seq<Rune>, t: seq<Rune>, value: seq<Rune>, bs: seq<Rune>, quoted: bool)
    requires Clean(l) && TrimStart(l) != [] && bs != []
    requires if quoted then At(t, 0) == QUOTE else IsBreak(At(t, 0)) || At(t, 0) == NUL
    ensures var core := TrimStart(l);
      && |l| - |core| + |Quoted(core)| > 0
      && Scan(Quoted(l) + t, 0, value, Folding(bs)) ==
         if Indicates(l, quoted) then None
         else Scan(t, |l| - |core| + |Quoted(core)|, value + Joined(bs) + TrimEnd(core), Between(TailBlanks(core)))
  {
    hide *;
    var core := TrimStart(l);
    var blanks := |l| - |core|;
    CoreIs(l);
    SkipBlanks(l, t, 0, value, Folding(bs));
    BeginLine(core, t, value, bs, quoted, blanks);
    TrimmedIndicates(l, quoted);
    QuotedFirst(core);
    if blanks != 0 || !Indicates(l, quoted) {
      FirstOfLine(core, t, blanks, value + Joined(bs));
    }
  }

  lemma {:induction false} CoreIs(l: seq<Rune>)
    requires Clean(l) && TrimStart(l) != []
    ensures Clean(TrimStart(l)) && !IsBlank(TrimStart(l)[0])
  {
  }

  lemma {:induction false} TrimmedIndicates(l: seq<Rune>, quoted: bool)
    ensures Indicates(l, quoted) <==> Indicates(TrimStart(l), quoted) && |TrimStart(l)| == |l|
  {
    if |l| >= 3 && IsBlank(l[0]) {
      assert l[..3][0] == l[0];
    }
  }

  /** The text of a line from its first column on. */
  lemma {:induction false} FirstOfLine(l: seq<Rune>, t: seq<Rune>, column: nat, value: seq<Rune>)
    requires Clean(l) && l != [] && !IsBlank(l[0])
    ensures Scan(Quoted(l) + t, column, value, Text) ==
            Scan(t, column + |Quoted(l)|, value + TrimEnd(l), Between(TailBlanks(l)))
  {
    var c := l[0];
    var more := Quoted(l[1..]) + t;
    OneMore([], c);
    assert [] + [c] == [c];
    hide Scan, Quoted, TrimEnd, TailBlanks;
    QuotedFirst(l);
    assert Quoted(l) + t == ((if c == QUOTE then [QUOTE] else []) + [c]) + more;
    ReadText(c, more, column, value);
    ReadLineText(l[1..], t, column + |Quoted(l)| - |Quoted(l[1..])|, value, [c]);
    assert [c] + l[1..] == l;
  }

  /** Behind breaks. */
  lemma {:induction false} ScanBehind(ls: Lines, u: seq<Rune>, value: seq<Rune>, bs: seq<Rune>)
    requires Proper(ls) && Stops(u) && bs != []
    ensures Scan(Written(ls) + u, 0, value, Folding(bs)) ==
            Outcome(value + Behind(bs, ls), NoneIndicates(ls), u)
    decreases ls
  {
    hide *;
    BehindIs(ls, bs, u, value);
    WrittenIs(ls, u);
    match ls
    case Last(l) => LastBehind(l, u, value, bs);
    case Line(l, b, r) =>
      var t := Written(r) + u;
      if b == [CR] {
        NotSplit(r, u);
      }
      LineBehind(l, b, t, value, bs);
      BlankIndicates(l);
      if TrimStart(l) == [] {
        ScanBehind(r, u, value, bs + [Normal(b)]);
      } else if !Indicates(l, false) {
        ScanBehind(r, u, value + Joined(bs) + TrimEnd(TrimStart(l)), [Normal(b)]);
      }
  }

  /** What the definitions say of the first of some lines. */
  lemma {:induction false} BehindIs(ls: Lines, bs: seq<Rune>, u: seq<Rune>, value: seq<Rune>)
    requires Proper(ls) && bs != []
    ensures match ls
      case Last(l) =>
        Clean(l) && Behind(bs, ls) == Joined(bs) + TrimStart(l) && (NoneIndicates(ls) <==> !Indicates(l, true))
      case Line(l, b, r) =>
        && Clean(l) && IsBreakText(b) && Proper(r) && (b == [CR] ==> !(r.Line? && r.line == [] && r.brk == [LF]))
        && (NoneIndicates(ls) <==> !Indicates(l, false) && NoneIndicates(r))
        && (Indicates(l, false) ==> Outcome(value + Behind(bs, ls), NoneIndicates(ls), u) == None)
        && if TrimStart(l) == [] then Behind(bs, ls) == Behind(bs + [Normal(b)], r)
           else value + Joined(bs) + TrimEnd(TrimStart(l)) + Behind([Normal(b)], r) == value + Behind(bs, ls)
  {
    hide TrimStart, TrimEnd, Clean, Indicates, Normal, IsBreakText, Joined;
  }

  lemma {:induction false} WrittenIs(ls: Lines, u: seq<Rune>)
    ensures Written(ls) + u == Quoted(ls.line) + if ls.Last? then u else ls.brk + (Written(ls.rest) + u)
  {
  }

  lemma {:induction false} LastBehind(l: seq<Rune>, u: seq<Rune>, value: seq<Rune>, bs: seq<Rune>)
    requires Clean(l) && Stops(u) && bs != []
    ensures Scan(Quoted(l) + u, 0, value, Folding(bs)) ==
            Outcome(value + (Joined(bs) + TrimStart(l)), !Indicates(l, true), u)
  {
    hide *;
    var core := TrimStart(l);
    if core == [] {
      SkipBlanks(l, u, 0, value, Folding(bs));
      QuotedNone();
      BlankIndicates(l);
      ReadEnd(u, |l|, value, Folding(bs));
      JoinedIs(bs);
      assert [] + u == u && Joined(bs) + core == Joined(bs);
    } else {
      LastWithText(l, u, value, bs);
    }
  }

  lemma {:induction false} LastWithText(l: seq<Rune>, u: seq<Rune>, value: seq<Rune>, bs: seq<Rune>)
    requires Clean(l) && Stops(u) && bs != [] && TrimStart(l) != []
    ensures Scan(Quoted(l) + u, 0, value, Folding(bs)) ==
            Outcome(value + (Joined(bs) + TrimStart(l)), !Indicates(l, true), u)
  {
    hide *;
    var core := TrimStart(l);
    HowItStops(l, u, value + (Joined(bs) + core));
    ReadLine(l, u, value, bs, Closed(u));
    BetweenIs(TailBlanks(core));
    ReadEnd(u, |l| - |core| + |Quoted(core)|, value + Joined(bs) + TrimEnd(core), Between(TailBlanks(core)));
    OneMore(core, SPACE);
    assert value + Joined(bs) + TrimEnd(core) + TailBlanks(core) == value + (Joined(bs) + core);
  }

  lemma {:induction false} HowItStops(l: seq<Rune>, u: seq<Rune>, value: seq<Rune>)
    requires Stops(u)
    ensures if Closed(u) then At(u, 0) == QUOTE else At(u, 0) == NUL
    ensures Indicates(l, Closed(u)) ==> Outcome(value, !Indicates(l, true), u) == None
    ensures !Indicates(l, Closed(u)) ==> Outcome(value, !Indicates(l, true), u) == Outcome(value, true, u)
  {
  }

  lemma {:induction false} JoinedIs(bs: seq<Rune>)
    requires bs != []
    ensures Fold(Folding(bs)) == Joined(bs)
  {
    assert bs == [bs[0]] + bs[1..];
  }

  lemma {:induction false} FoldingMore(bs: seq<Rune>, n: Rune)
    requires bs != []
    ensures Folding(bs + [n]) == Blanks(true, [], [bs[0]], bs[1..] + [n]) && Folding(bs) == Blanks(true, [], [bs[0]], bs[1..])
  {
    assert bs + [n] == [bs[0]] + (bs[1..] + [n]);
  }

  lemma {:induction false} FoldingOne(n: Rune)
    ensures Folding([n]) == Blanks(true, [], [n], [])
  {
    assert [n][1..] == [];
  }

  lemma {:induction false} LineBehind(l: seq<Rune>, b: seq<Rune>, t: seq<Rune>, value: seq<Rune>, bs: seq<Rune>)
    requires Clean(l) && IsBreakText(b) && (b == [CR] ==> At(t, 0) != LF) && bs != []
    ensures Scan(Quoted(l) + (b + t), 0, value, Folding(bs)) ==
            if TrimStart(l) == [] then Scan(t, 0, value, Folding(bs + [Normal(b)]))
            else if Indicates(l, false) then None
            else Scan(t, 0, value + Joined(bs) + TrimEnd(TrimStart(l)), Folding([Normal(b)]))
  {
    hide Scan, Quoted, TrimEnd, TrimStart, Normal;
    var core := TrimStart(l);
    if core == [] {
      SkipBlanks(l, b + t, 0, value, Folding(bs));
      QuotedNone();
      ReadAnyBreak(b, t, |l|, value, Folding(bs));
      FoldingMore(bs, Normal(b));
      assert [] + (b + t) == b + t;
    } else {
      ReadLine(l, b + t, value, bs, false);
      ReadLineEnd(b, t, |l| - |core| + |Quoted(core)|, value + Joined(bs) + TrimEnd(core), TailBlanks(core));
      FoldingOne(Normal(b));
    }
  }

  lemma {:induction false} BlankIndicates(l: seq<Rune>)
    ensures TrimStart(l) == [] ==> !Indicates(l, true) && !Indicates(l, false)
  {
    if TrimStart(l) == [] && |l| >= 3 {
      assert IsBlank(l[0]) && l[..3][0] == l[0];
    }
  }

  /** What the scanner makes of any text behind the opening quote.  There is a value if
      and only if the quote is closed and no line in between begins with a document
      indicator; and it is the text with quotes halved and breaks folded. */
  lemma {:induction false} ScanLines(ls: Lines, u: seq<Rune>, column: nat)
    requires Proper(ls) && Stops(u) && column > 0
    ensures Scan(Written(ls) + u, column, [], Top) == Outcome(Value(ls), Sound(ls), u)
  {
    hide Scan, Written, TrimEnd, Quoted, Normal, Folding;
    var l := ls.line;
    WrittenIs(ls, u);
    match ls
    case Last(_) => FirstIsLast(l, u, column);
    case Line(_, b, r) =>
      if b == [CR] {
        NotSplit(r, u);
      }
      FirstLine(l, b, Written(r) + u, column);
      ScanBehind(r, u, TrimEnd(l), [Normal(b)]);
  }

  lemma {:induction false} FirstIsLast(l: seq<Rune>, u: seq<Rune>, column: nat)
    requires Clean(l) && Stops(u) && column > 0
    ensures Scan(Quoted(l) + u, column, [], Top) == Outcome(l, true, u)
  {
    hide *;
    StartOfText(l, u, column);
    ReadFirst(l, u, column);
    BetweenIs(TailBlanks(l));
    ReadEnd(u, column + |Quoted(l)|, TrimEnd(l), Between(TailBlanks(l)));
    OneMore(l, SPACE);
  }

  lemma {:induction false} BetweenIs(spaces: seq<Rune>)
    ensures !Between(spaces).Top? && Fold(Between(spaces)) == spaces && Between([]) == Text
  {
  }

  lemma {:induction false} FirstLine(l: seq<Rune>, b: seq<Rune>, t: seq<Rune>, column: nat)
    requires Clean(l) && IsBreakText(b) && (b == [CR] ==> At(t, 0) != LF) && column > 0
    ensures Scan(Quoted(l) + (b + t), column, [], Top) == Scan(t, 0, TrimEnd(l), Folding([Normal(b)]))
  {
    hide *;
    StartOfText(l, b + t, column);
    ReadFirst(l, b + t, column);
    ReadLineEnd(b, t, column + |Quoted(l)|, TrimEnd(l), TailBlanks(l));
    FoldingOne(Normal(b));
  }

  lemma {:induction false} ReadFirst(l: seq<Rune>, t: seq<Rune>, column: nat)
    requires Clean(l) && column > 0
    ensures Scan(Quoted(l) + t, column, [], Text) == Scan(t, column + |Quoted(l)|, TrimEnd(l), Between(TailBlanks(l)))
  {
    NothingDone();
    BetweenIs([]);
    hide *;
    ReadLineText(l, t, column, [], []);
    assert [] + l == l && [] + TrimEnd(l) == TrimEnd(l);
  }

  lemma {:induction false} NothingDone()
    ensures TrimEnd([]) == [] && TailBlanks([]) == [] && [] + TrimEnd([]) == []
  {
  }

  lemma {:induction false} StartOfText(l: seq<Rune>, t: seq<Rune>, column: nat)
    requires column > 0
    ensures Scan(Quoted(l) + t, column, [], Top) == Scan(Quoted(l) + t, column, [], Text)
  {
    var s := Quoted(l) + t;
    if At(s, 0) == NUL {
      IntoBlanks(s, column, []);
      assert Scan(s, column, [], Blanks(false, [], [], [])) == Scan(s, column, [] + [], Top);
    }
  }

  /** One more code point at the beginning. */
  function Prepend(c: Rune, ls: Lines): Lines {
    ls.(line := [c] + ls.line)
  }

  lemma {:induction false} PrependIs(c: Rune, ls: Lines, u: seq<Rune>)
    requires Proper(ls) && !IsBreak(c) && c != NUL
    ensures Proper(Prepend(c, ls))
    ensures Written(Prepend(c, ls)) + u == (if c == QUOTE then [QUOTE] else []) + [c] + (Written(ls) + u)
  {
    var l := [c] + ls.line;
    assert l[1..] == ls.line;
    QuotedFirst(l);
  }

  /** Any text is such lines, up to the closing quote or the end. */
  lemma {:induction false} AnyText(t: seq<Rune>) returns (ls: Lines, u: seq<Rune>)
    ensures Proper(ls) && Stops(u) && t == Written(ls) + u
    decreases |t|
  {
    var c := At(t, 0);
    if c == NUL || Closed(t) {
      ls, u := Last([]), t;
    } else if IsBreak(c) {
      ls, u := AfterAnyBreak(t);
    } else {
      var k := if c == QUOTE then 2 else 1;
      ls, u := AnyText(t[k..]);
      PrependIs(c, ls, u);
      ls := Prepend(c, ls);
    }
  }

  lemma {:induction false} BreakThen(t: seq<Rune>, r: Lines, u: seq<Rune>)
    requires t != [] && IsBreak(t[0]) && Proper(r)
    requires t[LineBreak(t).0..] == Written(r) + u
    ensures Proper(Line([], t[..LineBreak(t).0], r)) && t == Written(Line([], t[..LineBreak(t).0], r)) + u
  {
    var n := LineBreak(t).0;
    QuotedNone();
    WrittenIs(r, u);
    WrittenIs(Line([], t[..n], r), u);
    hide Written, Quoted;
    assert t == [] + (t[..n] + t[n..]);
    if r.Line? && r.line == [] && r.brk == [LF] {
      assert t[n..] == [] + ([LF] + (Written(r.rest) + u));
      assert t[n..][0] == LF;
    }
  }

  lemma {:induction false} AfterAnyBreak(t: seq<Rune>) returns (ls: Lines, u: seq<Rune>)
    requires t != [] && IsBreak(t[0])
    ensures Proper(ls) && Stops(u) && t == Written(ls) + u
    decreases |t|, 0
  {
    var n := LineBreak(t).0;
    var r;
    r, u := AnyText(t[n..]);
    BreakThen(t, r, u);
    ls := Line([], t[..n], r);
  }

  /** A value on one line comes back as it is, with all its blanks, whatever they are. */
  lemma {:induction false} OneLine(v: seq<Rune>, column: nat, rest: seq<Rune>)
    requires Clean(v) && column > 0 && At(rest, 0) != QUOTE
    ensures Scan(Quoted(v) + [QUOTE] + rest, column, [], Top) == Some((v, rest))
  {
    var u := [QUOTE] + rest;
    assert u[1..] == rest && Quoted(v) + [QUOTE] + rest == Written(Last(v)) + u;
    ScanLines(Last(v), u, column);
  }

  // ---------------------------------------------------------------------
  // Where the emitter breaks lines
  // ---------------------------------------------------------------------

  /** Nothing in it can be the end of a line. */
  predicate Word(a: seq<Rune>) {
    forall i :: 0 <= i < |a| ==> !IsBreak(a[i]) && a[i] != SPACE
  }

  /** A word is written as it is, on one line. */
  lemma {:induction false} WritesWord(v: seq<Rune>, i: nat, k: nat, o: Style, w: Writer) returns (w': Writer)
    requires i <= k <= |v| && Word(v[i..k]) && !w.breaks
    ensures WriteFrom(v, i, o, w) == Quoted(v[i..k]) + WriteFrom(v, k, o, w')
    ensures w'.column == w.column + |Quoted(v[i..k])| && !w'.breaks
    ensures if i < k then !w'.spaces && !w'.indention else w' == w
    decreases k - i
  {
    hide Quoted, WriteOne;
    if i == k {
      QuotedNone();
      assert v[i..k] == [];
      w' := w;
    } else {
      var c := v[i];
      assert c == v[i..k][0] && v[i..k][1..] == v[i + 1..k];
      QuotedFirst(v[i..k]);
      WritesRune(v, i, o, w);
      var w1 := WriteOne(v, i, o, w).1;
      w' := WritesWord(v, i + 1, k, o, w1);
    }
  }

  lemma {:induction false} WritesRune(v: seq<Rune>, i: nat, o: Style, w: Writer)
    requires i < |v| && !IsBreak(v[i]) && v[i] != SPACE && !w.breaks
    ensures var q := (if v[i] == QUOTE then [QUOTE] else []) + [v[i]]; var (text, w') := WriteOne(v, i, o, w);
      text == q && w'.column == w.column + |q| && !w'.breaks && !w'.spaces && !w'.indention
  {
  }

  /** Between two words the line is broken exactly if it may be and the first word goes
      past the width; where it is not, the value is written as it is. */
  lemma {:induction false} TwoWords(a: seq<Rune>, b: seq<Rune>, o: Style, w: Writer)
    requires a != [] && b != [] && Word(a) && Word(b) && !w.breaks
    ensures WriteFrom(a + [SPACE] + b, 0, o, w) ==
            Quoted(a)
            + (if o.allowBreaks && w.column + |Quoted(a)| > o.width then BreakRunes(o.lineBreak) + Spaces(o.indent) else [SPACE])
            + (Quoted(b) + [QUOTE])
  {
    hide *;
    var v, n := a + [SPACE] + b, |a|;
    assert v[0..n] == a && v[n] == SPACE && v[n + 1..|v|] == b && v[n + 1] == b[0];
    var w1 := WritesWord(v, 0, n, o, w);
    FirstOf(b);
    SpaceBetween(v, n, o, w1);
    var w2 := WriteOne(v, n, o, w1).1;
    var w3 := WritesWord(v, n + 1, |v|, o, w2);
    WritesEnd(v, o, w3);
  }

  lemma {:induction false} SpaceBetween(v: seq<Rune>, i: nat, o: Style, w: Writer)
    requires 0 < i && i + 1 < |v| && v[i] == SPACE && v[i + 1] != SPACE && !w.spaces && !w.indention && !w.breaks
    ensures var text := if o.allowBreaks && w.column > o.width then BreakRunes(o.lineBreak) + Spaces(o.indent) else [SPACE];
      WriteFrom(v, i, o, w) == text + WriteFrom(v, i + 1, o, WriteOne(v, i, o, w).1)
    ensures !WriteOne(v, i, o, w).1.breaks
  {
    hide BreakRunes, Spaces;
  }

  lemma {:induction false} WritesEnd(v: seq<Rune>, o: Style, w: Writer)
    requires !w.breaks
    ensures WriteFrom(v, |v|, o, w) == [QUOTE]
  {
    assert [] + [QUOTE] == [QUOTE];
  }

  lemma {:induction false} FirstOf(b: seq<Rune>)
    requires b != [] && Word(b)
    ensures b[0] != SPACE
  {
  }

  /** yaml_emitter_increase_indent */
  function IncreaseIndent(indent: int, best: int, flow: bool, indentless: bool): int {
    if indent < 0 then (if flow then best else 0)
    else if !indentless then indent + best
    else indent
  }

  /** A scalar is always written with an indent of at least two. */
  lemma {:induction false} ScalarIndent(indent: int, best: int)
    requires 2 <= best <= 9
    ensures IncreaseIndent(indent, best, true, false) >= 2
  {
  }

  /** The same for a scalar as yaml_emitter_emit_scalar writes it: one level deeper than
      what is around it, by the indent that yaml_emitter_emit_stream_start lets through. */
  lemma {:induction false} ScalarRoundTrip(v: seq<Rune>, o: Style, indent: int, best: int, column: nat, scanColumn: nat, rest: seq<Rune>)
    requires Quotable(v) && 2 <= best <= 9 && o.indent == IncreaseIndent(indent, best, true, false)
    requires scanColumn > 0 && At(rest, 0) != QUOTE
    ensures Scan(WriteFrom(v, 0, o, Writer(column, false, false, false, false)) + rest, scanColumn, [], Top) == Some((v, rest))
  {
    ScalarIndent(indent, best);
    RoundTrip(v, o, column, scanColumn, rest);
  }

  /** The flag single_quoted_allowed of yaml_emitter_analyze_scalar, unicode being off. */
  method AnalyzeScalar(v: seq<Rune>) returns (singleQuotedAllowed: bool)
    ensures singleQuotedAllowed <==> Quotable(v)
  {
    var specialCharacters, breakSpace, spaceBreak := false, false, false;
    var previousSpace, previousBreak := false, false;
    for i := 0 to |v|
      invariant specialCharacters <==> exists j :: 0 <= j < i && !Plain(v[j])
      invariant previousSpace <==> i > 0 && v[i - 1] == SPACE
      invariant previousBreak <==> i > 0 && IsBreak(v[i - 1])
      invariant !specialCharacters ==> (spaceBreak <==> Adjacent(v, i, SPACE, LF)) && (breakSpace <==> Adjacent(v, i, LF, SPACE))
    {
      var c := v[i];
      if !Plain(c) {
        specialCharacters := true;
      }
      if c == SPACE {
        if previousBreak {
          breakSpace := true;
        }
        previousSpace, previousBreak := true, false;
      } else if IsBreak(c) {
        if previousSpace {
          spaceBreak := true;
        }
        previousSpace, previousBreak := false, true;
      } else {
        previousSpace, previousBreak := false, false;
      }
    }
    singleQuotedAllowed := !breakSpace && !spaceBreak && !specialCharacters;
    AdjacentAll(v);
  }

  /** Somewhere in `v[..n]` there is an `a` right before a `b`. */
  predicate Adjacent(v: seq<Rune>, n: nat, a: Rune, b: Rune)
    requires n <= |v|
  {
    n > 1 && (Adjacent(v, n - 1, a, b) || (v[n - 2] == a && v[n - 1] == b))
  }

  lemma {:induction false} AdjacentWhere(v: seq<Rune>, n: nat, a: Rune, b: Rune)
    requires n <= |v|
    ensures Adjacent(v, n, a, b) <==> exists j {:trigger v[j]} :: 0 <= j < n - 1 && v[j] == a && v[j + 1] == b
  {
    if n > 1 {
      AdjacentWhere(v, n - 1, a, b);
    }
  }

  lemma {:induction false} AdjacentAll(v: seq<Rune>)
    ensures Quotable(v) <==> (forall j :: 0 <= j < |v| ==> Plain(v[j])) && !Adjacent(v, |v|, SPACE, LF) && !Adjacent(v, |v|, LF, SPACE)
  {
    AdjacentWhere(v, |v|, SPACE, LF);
    AdjacentWhere(v, |v|, LF, SPACE);
  }

  /** The part of yaml_emitter_t that writes scalars. */
  class Emitter {
    const style: Style
    var buffer: seq<Rune>
    var column: nat
    var whitespace: bool
    var indention: bool

    constructor (style: Style)
      ensures this.style == style && buffer == [] && column == 0 && whitespace && indention
    {
      this.style, buffer, column, whitespace, indention := style, [], 0, true, true;
    }

    /** PUT and WRITE */
    method Put(c: Rune)
      modifies this`buffer, this`column
      ensures buffer == old(buffer) + [c] && column == old(column) + 1
    {
      buffer := buffer + [c];
      column := column + 1;
    }

    /** PUT_BREAK */
    method PutBreak()
      modifies this`buffer, this`column
      ensures buffer == old(buffer) + BreakRunes(style.lineBreak) && column == 0
    {
      buffer := buffer + BreakRunes(style.lineBreak);
      column := 0;
    }

    /** yaml_emitter_write_indent */
    method WriteIndent(ghost spaces: bool, ghost breaks: bool)
      modifies this
      ensures var (text, w) := Indent(style, Writer(old(column), spaces, breaks, old(indention), old(whitespace)));
              buffer == old(buffer) + text && w == Writer(column, spaces, breaks, indention, whitespace)
    {
      if !indention || column > style.indent || (column == style.indent && !whitespace) {
        PutBreak();
      }
      ghost var before, from := buffer, column;
      assert before + Spaces(0) == before;
      while column < style.indent
        invariant from <= column && (from <= style.indent ==> column <= style.indent) && (from > style.indent ==> column == from)
        invariant buffer == before + Spaces(column - from)
        invariant whitespace == old(whitespace) && indention == old(indention)
      {
        assert Spaces(column - from) + [SPACE] == Spaces(column - from + 1);
        Put(SPACE);
      }
      whitespace := true;
      indention := true;
    }

    /** yaml_emitter_write_indicator, for the quote */
    method WriteIndicator(needWhitespace: bool)
      modifies this
      ensures buffer == old(buffer) + (if needWhitespace && !old(whitespace) then [SPACE] else []) + [QUOTE]
      ensures !whitespace && !indention && column > 0
    {
      if needWhitespace && !whitespace {
        Put(SPACE);
      }
      Put(QUOTE);
      whitespace := false;
      indention := false;
    }

    /** One turn of the loop of yaml_emitter_write_single_quoted_scalar. */
    method WriteRune(v: seq<Rune>, i: nat, spaces: bool, breaks: bool) returns (spaces': bool, breaks': bool)
      requires i < |v|
      modifies this
      ensures var (text, w) := WriteOne(v, i, style, Writer(old(column), spaces, breaks, old(indention), old(whitespace)));
              buffer == old(buffer) + text && w == Writer(column, spaces', breaks', indention, whitespace)
    {
      hide Indent, BreakRunes;
      spaces', breaks' := spaces, breaks;
      var c := v[i];
      if c == SPACE {
        if style.allowBreaks && !spaces && column > style.width && i != 0 && i != |v| - 1 && At(v, i + 1) != SPACE {
          WriteIndent(spaces, breaks);
        } else {
          Put(c);
        }
        spaces' := true;
      } else if IsBreak(c) {
        if !breaks && c == LF {
          PutBreak();
        }
        if c == LF {
          PutBreak();
        } else {
          buffer := buffer + [c];
          column := 0;
        }
        indention := true;
        breaks' := true;
      } else {
        if breaks {
          WriteIndent(spaces, breaks);
        }
        if c == QUOTE {
          Put(QUOTE);
        }
        Put(c);
        indention := false;
        spaces', breaks' := false, false;
      }
    }

    /** The end of yaml_emitter_write_single_quoted_scalar. */
    method EndScalar(ghost v: seq<Rune>, ghost spaces: bool, breaks: bool)
      modifies this
      ensures buffer == old(buffer) + WriteFrom(v, |v|, style, Writer(old(column), spaces, breaks, old(indention), old(whitespace)))
      ensures !whitespace && !indention
    {
      hide Indent;
      ghost var before := buffer;
      ghost var text := [];
      if breaks {
        text := Indent(style, Writer(column, spaces, breaks, indention, whitespace)).0;
        WriteIndent(spaces, breaks);
      }
      assert buffer == before + text;
      WriteIndicator(false);
      assert buffer == before + text + [] + [QUOTE] == before + (text + [QUOTE]);
      whitespace := false;
      indention := false;
    }

    /** What comes behind the opening quote. */
    method WriteBody(v: seq<Rune>)
      requires !whitespace && !indention
      modifies this
      ensures buffer == old(buffer) + WriteFrom(v, 0, style, Writer(old(column), false, false, false, false))
      ensures !whitespace && !indention
    {
      hide WriteOne, WriteFrom, Indent;
      var spaces, breaks := false, false;
      for i := 0 to |v|
        invariant buffer + WriteFrom(v, i, style, Writer(column, spaces, breaks, indention, whitespace)) ==
                  old(buffer) + WriteFrom(v, 0, style, Writer(old(column), false, false, false, false))
      {
        Step(buffer, v, i, Writer(column, spaces, breaks, indention, whitespace));
        spaces, breaks := WriteRune(v, i, spaces, breaks);
      }
      EndScalar(v, spaces, breaks);
    }

    /** yaml_emitter_write_single_quoted_scalar */
    method WriteSingleQuoted(v: seq<Rune>) returns (ghost start: nat)
      modifies this
      ensures start > 0 && !whitespace && !indention
      ensures buffer == old(buffer) + (if old(whitespace) then [] else [SPACE]) + [QUOTE]
                          + WriteFrom(v, 0, style, Writer(start, false, false, false, false))
    {
      hide WriteFrom;
      WriteIndicator(true);
      start := column;
      WriteBody(v);
    }

    lemma {:induction false} Step(was: seq<Rune>, v: seq<Rune>, i: nat, w: Writer)
      requires i < |v|
      ensures var (text, w') := WriteOne(v, i, style, w);
              was + WriteFrom(v, i, style, w) == (was + text) + WriteFrom(v, i + 1, style, w')
    {
    }
  }

  /** The scanner, from the opening quote on. */
  class Scanner {
    const text: seq<Rune>
    var pos: nat
    var column: nat

    constructor (text: seq<Rune>, column: nat)
      ensures this.text == text && pos == 0 && this.column == column
    {
      this.text, pos, this.column := text, 0, column;
    }

    /** SKIP and READ */
    method Skip()
      requires pos < |text|
      modifies this
      ensures pos == old(pos) + 1 && column == old(column) + 1
    {
      pos := pos + 1;
      column := column + 1;
    }

    /** READ_LINE */
    method ReadLine() returns (b: Rune)
      requires pos < |text| && IsBreak(text[pos])
      modifies this
      ensures var (n, c) := LineBreak(text[old(pos)..]); pos == old(pos) + n <= |text| && b == c && column == 0
    {
      var t := text[pos..];
      column := 0;
      if t[0] == CR && At(t, 1) == LF {
        pos := pos + 2;
        return LF;
      }
      pos := pos + 1;
      b := if t[0] == LS || t[0] == PS then t[0] else LF;
    }

    /** What the scan comes to from here on. */
    ghost function Ahead(value: seq<Rune>, p: Phase): Option<(seq<Rune>, seq<Rune>)>
      requires pos <= |text|
      reads this
    {
      Scan(text[pos..], column, value, p)
    }

    /** The loop over what is not blank. */
    method ScanText(value0: seq<Rune>) returns (value: seq<Rune>)
      requires pos <= |text|
      modifies this
      ensures old(pos) <= pos <= |text| && Ahead(value, Text) == old(Ahead(value0, Text))
      ensures IsBlankZ(At(text[pos..], 0)) || (At(text[pos..], 0) == QUOTE && At(text[pos..], 1) != QUOTE)
    {
      value := value0;
      while !IsBlankZ(At(text[pos..], 0))
        invariant old(pos) <= pos <= |text| && Ahead(value, Text) == old(Ahead(value0, Text))
        decreases |text| - pos
      {
        var t := text[pos..];
        assert t[1..] == text[pos + 1..];
        if At(t, 0) == QUOTE && At(t, 1) == QUOTE {
          assert t[2..] == text[pos + 2..];
          value := value + [QUOTE];
          Skip();
          Skip();
        } else if At(t, 0) == QUOTE {
          return;
        } else {
          value := value + [t[0]];
          Skip();
        }
      }
    }

    /** The loop over blanks and line breaks, and what they come to. */
    method ScanBlanks(ghost value: seq<Rune>) returns (joined: seq<Rune>)
      requires pos <= |text|
      modifies this
      ensures old(pos) <= pos <= |text| && Ahead(value + joined, Top) == old(Ahead(value, Blanks(false, [], [], [])))
      ensures !IsBlank(At(text[pos..], 0)) && !IsBreak(At(text[pos..], 0))
      ensures pos == old(pos) ==> !IsBlank(At(text[pos..], 0)) && !IsBreak(At(text[pos..], 0))
    {
      var leading := false;
      var spaces, first, more := [], [], [];
      while IsBlank(At(text[pos..], 0)) || IsBreak(At(text[pos..], 0))
        invariant old(pos) <= pos <= |text|
        invariant Ahead(value, Blanks(leading, spaces, first, more)) == old(Ahead(value, Blanks(false, [], [], [])))
        invariant leading ==> first != []
        decreases |text| - pos
      {
        var t := text[pos..];
        if IsBlank(At(t, 0)) {
          assert t[1..] == text[pos + 1..];
          if !leading {
            spaces := spaces + [t[0]];
          }
          Skip();
        } else {
          ghost var n := LineBreak(t).0;
          assert t[n..] == text[pos + n..];
          var b := ReadLine();
          if !leading {
            spaces, first, leading := [], first + [b], true;
          } else {
            more := more + [b];
          }
        }
      }
      if leading {
        if first[0] == LF {
          joined := if more == [] then [SPACE] else more;
        } else {
          joined := first + more;
        }
      } else {
        joined := spaces;
      }
    }

    /** yaml_parser_scan_flow_scalar, for a single-quoted scalar: no value where it
        reports an error.  Whatever the text is, it is made of lines: there is a value
        if and only if the quote is closed and no line begins with a document indicator. */
    method ScanSingleQuoted() returns (value: Option<seq<Rune>>, ghost ls: Lines, ghost u: seq<Rune>)
      requires pos < |text|
      modifies this
      ensures old(pos) < pos <= |text|
      ensures Proper(ls) && Stops(u) && text[old(pos) + 1..] == Written(ls) + u
      ensures if Sound(ls) && Closed(u) then value == Some(Value(ls)) && text[pos..] == u[1..] else value == None
      ensures var r := Scan(text[old(pos) + 1..], old(column) + 1, [], Top);
              if value.Some? then r == Some((value.value, text[pos..])) else r == None
    {
      hide Value, Written, Proper, Sound;
      ls, u := AnyText(text[pos + 1..]);
      ScanLines(ls, u, column + 1);
      Skip();
      var s: seq<Rune> := [];
      while true
        invariant old(pos) < pos <= |text| && Ahead(s, Top) == Scan(text[old(pos) + 1..], old(column) + 1, [], Top)
        decreases |text| - pos
      {
        var t := text[pos..];
        if column == 0 && DocumentIndicator(t) {
          return None, ls, u;
        }
        if At(t, 0) == NUL {
          return None, ls, u;
        }
        s := ScanText(s);
        t := text[pos..];
        if At(t, 0) == QUOTE {
          assert t[1..] == text[pos + 1..];
          Skip();
          return Some(s), ls, u;
        }
        var joined := ScanBlanks(s);
        s := s + joined;
      }
    }
  }
}
