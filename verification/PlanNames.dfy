/** The names that record an inlining, and the pieces of the parser that take them apart
    (pandaPIgrounder: postprocessing.cpp:398-403, 530-537; pandaPIparser: plan.cpp:44-105, 357-381). */
module PlanNames {

  // ----- numbers -----

  predicate IsDigit(c: char) {
    '0' <= c <= '9'
  }

  function Digit(d: nat): (c: char)
    requires d < 10
    ensures IsDigit(c) && c as int - '0' as int == d
  {
    ('0' as int + d) as char
  }

  /** std::to_string. */
  function NatText(n: nat): (s: string)
    ensures |s| > 0 && forall i :: 0 <= i < |s| ==> IsDigit(s[i])
  {
    if n < 10 then [Digit(n)] else NatText(n / 10) + [Digit(n % 10)]
  }

  function Text(x: int): (s: string)
    ensures |s| > 0 && forall i :: 0 <= i < |s| ==> IsDigit(s[i]) || s[i] == '-'
  {
    if x < 0 then "-" + NatText(-x) else NatText(x)
  }

  /** The value of a string of digits. */
  function NatValue(s: string): nat {
    if |s| == 0 || !IsDigit(s[|s| - 1]) then 0 else NatValue(s[..|s| - 1]) * 10 + (s[|s| - 1] as int - '0' as int)
  }

  predicate AllDigits(s: string) {
    forall i :: 0 <= i < |s| ==> IsDigit(s[i])
  }

  datatype Option<T> = None | Some(value: T)

  function Minus(n: nat): Option<int> {
    var x: int := 0 - n;
    Some(x)
  }

  /** strtol on a whole word: an optional sign and digits; the empty word counts as 0, anything else is rejected. */
  function StrToL(s: string): Option<int> {
    if s == "" then Some(0)
    else if s[0] == '-' && |s| > 1 && AllDigits(s[1..]) then Minus(NatValue(s[1..]))
    else if s[0] == '+' && |s| > 1 && AllDigits(s[1..]) then Some(NatValue(s[1..]))
    else if AllDigits(s) then Some(NatValue(s)) else None
  }

  lemma {:induction false} NatRoundTrip(n: nat)
    ensures NatValue(NatText(n)) == n
    decreases n
  {
    if n >= 10 {
      NatRoundTrip(n / 10);
      var s := NatText(n);
      assert s[..|s| - 1] == NatText(n / 10);
    } else {
      assert NatText(n)[..0] == [];
    }
  }

  lemma SignedRead(digits: string)
    requires |digits| > 0 && AllDigits(digits)
    ensures StrToL("-" + digits) == Minus(NatValue(digits)) && StrToL(digits) == Some(NatValue(digits))
  {
    hide NatValue;
    assert ("-" + digits)[1..] == digits;
    assert IsDigit(digits[0]);
  }

  lemma TextRoundTrip(x: int)
    ensures StrToL(Text(x)) == Some(x)
  {
    hide NatText, NatValue, StrToL;
    if x < 0 {
      NatRoundTrip(-x);
      SignedRead(NatText(-x));
    } else {
      NatRoundTrip(x);
      SignedRead(NatText(x));
    }
  }

  // ----- lists of words -----

  function Join(list: seq<string>, sep: char): string {
    if |list| == 0 then "" else if |list| == 1 then list[0] else list[0] + [sep] + Join(list[1..], sep)
  }

  lemma {:induction false} JoinSnoc(list: seq<string>, sep: char, x: string)
    requires |list| > 0
    ensures Join(list + [x], sep) == Join(list, sep) + [sep] + x
    decreases |list|
  {
    if |list| == 1 {
      assert (list + [x])[1..] == [x];
    } else {
      assert (list + [x])[1..] == list[1..] + [x];
      JoinSnoc(list[1..], sep, x);
    }
  }

  predicate Without(s: string, c: char) {
    forall i :: 0 <= i < |s| ==> s[i] != c
  }

  /** A word survives the separators. */
  predicate Clean(s: string) {
    |s| > 0 && Without(s, ' ') && Without(s, ',')
  }

  predicate AllClean(list: seq<string>) {
    forall i :: 0 <= i < |list| ==> Clean(list[i])
  }

  /** Commas become spaces (100, 379). */
  function Spaced(s: string): (r: string)
    ensures |r| == |s|
    ensures forall i :: 0 <= i < |s| ==> r[i] == if s[i] == ',' then ' ' else s[i]
  {
    seq(|s|, i requires 0 <= i < |s| => if s[i] == ',' then ' ' else s[i])
  }

  lemma {:induction false} SpacedJoin(list: seq<string>)
    requires AllClean(list)
    ensures Spaced(Join(list, ',')) == Join(list, ' ')
    decreases |list|
  {
    if |list| == 0 {
    } else if |list| == 1 {
      SpacedWord(list[0]);
    } else {
      SpacedJoin(list[1..]);
      SpacedWord(list[0]);
      var tail := Join(list[1..], ',');
      assert Spaced(list[0] + [','] + tail) == Spaced(list[0]) + [' '] + Spaced(tail);
    }
  }

  lemma SpacedWord(w: string)
    requires Clean(w)
    ensures Spaced(w) == w
  {
    assert forall i :: 0 <= i < |w| ==> Spaced(w)[i] == w[i];
  }

  function SkipSpaces(s: string, pos: nat): (q: nat)
    requires pos <= |s|
    ensures pos <= q <= |s| && (forall i :: pos <= i < q ==> s[i] == ' ') && (q < |s| ==> s[q] != ' ')
    decreases |s| - pos
  {
    if pos < |s| && s[pos] == ' ' then SkipSpaces(s, pos + 1) else pos
  }

  function WordEnd(s: string, pos: nat): (q: nat)
    requires pos <= |s|
    ensures pos <= q <= |s| && (forall i :: pos <= i < q ==> s[i] != ' ') && (q < |s| ==> s[q] == ' ')
    decreases |s| - pos
  {
    if pos < |s| && s[pos] != ' ' then WordEnd(s, pos + 1) else pos
  }

  /** What reading words until the end of the stream yields: at the end of the text an empty word is still read (44-53). */
  function Words(s: string, pos: nat): seq<string>
    requires pos <= |s|
    decreases |s| - pos
  {
    var q := SkipSpaces(s, pos);
    if q == |s| then [""] else
      var r := WordEnd(s, q);
      [s[q..r]] + (if r == |s| then [] else Words(s, r))
  }

  /** Clean words separated by single spaces are read back. */
  lemma {:induction false} WordsJoin(list: seq<string>, u: string, lead: string)
    requires |list| > 0 && AllClean(list) && (lead == "" || lead == " ")
    ensures Words(u + lead + Join(list, ' '), |u|) == list
    decreases |list|
  {
    hide Words;
    var w := list[0];
    if |list| == 1 {
      OneWord(u, lead, w, "");
      assert u + lead + w + "" == u + lead + w;
      assert list == [w];
    } else {
      var rest := list[1..];
      OneWord(u, lead, w, " " + Join(rest, ' '));
      WordsJoin(rest, u + lead + w, " ");
      Associate(u + lead, w, " ", Join(rest, ' '));
      assert list == [w] + rest;
    }
  }

  lemma Associate(a: string, b: string, c: string, d: string)
    ensures a + (b + c + d) == a + b + c + d && a + b + (c + d) == a + b + c + d
  {
  }

  lemma OneWord(u: string, lead: string, w: string, rest: string)
    requires (lead == "" || lead == " ") && Clean(w) && (rest != "" ==> rest[0] == ' ')
    ensures Words(u + lead + w + rest, |u|) == [w] + (if rest == "" then [] else Words(u + lead + w + rest, |u + lead + w|))
  {
    var s := u + lead + w + rest;
    var start := |u + lead|;
    assert s[start] == w[0];
    assert lead == " " ==> s[|u|] == ' ';
    SkipIs(s, |u|, start);
    forall i | 0 <= i < |w| ensures s[start + i] == w[i] { }
    assert rest != "" ==> s[start + |w|] == ' ';
    WordIs(s, start, w);
    assert s[start..start + |w|] == w;
  }

  lemma SkipIs(s: string, pos: nat, start: nat)
    requires pos <= start < |s| && start <= pos + 1 && (start == pos + 1 ==> s[pos] == ' ') && s[start] != ' '
    ensures SkipSpaces(s, pos) == start
  {
  }

  lemma {:induction false} WordIs(s: string, start: nat, w: string)
    requires start + |w| <= |s| && (forall i :: 0 <= i < |w| ==> s[start + i] == w[i]) && Without(w, ' ')
    requires start + |w| < |s| ==> s[start + |w|] == ' '
    ensures WordEnd(s, start) == start + |w|
    decreases |w|
  {
    if |w| > 0 {
      assert s[start] == s[start + 0] == w[0];
      forall i | 0 <= i < |w[1..]| ensures s[start + 1 + i] == w[1..][i] { assert s[start + (i + 1)] == w[i + 1]; }
      WordIs(s, start + 1, w[1..]);
    }
  }

  /** plan.cpp:44-59. */
  method ParseListOfStrings(s: string) returns (strings: seq<string>)
    ensures strings == Words(s, 0)
  {
    strings := [];
    var pos: nat, eof := 0, false;
    while !eof
      invariant pos <= |s| && Words(s, 0) == strings + (if eof then [] else Words(s, pos))
      decreases !eof, |s| - pos
    {
      var q := SkipSpaces(s, pos);
      var r := WordEnd(s, q);
      assert s[q..r] == if q == |s| then "" else s[q..r];
      strings := strings + [s[q..r]];
      pos, eof := r, r == |s|;
    }
  }

  /** The words that are numbers. */
  function Numbers(words: seq<string>): seq<int> {
    if |words| == 0 then [] else
      match StrToL(words[0])
      case Some(x) => [x] + Numbers(words[1..])
      case None => Numbers(words[1..])
  }

  lemma {:induction false} NumbersSnoc(words: seq<string>, w: string)
    ensures Numbers(words + [w]) == Numbers(words) + (match StrToL(w) case Some(x) => [x] case None => [])
    decreases |words|
  {
    if |words| == 0 {
      assert (words + [w])[1..] == [];
    } else {
      assert (words + [w])[1..] == words[1..] + [w];
      NumbersSnoc(words[1..], w);
    }
  }

  function TrimRight(s: string): string {
    if |s| > 0 && s[|s| - 1] == ' ' then TrimRight(s[..|s| - 1]) else s
  }

  /** plan.cpp:61-86. */
  method ParseListOfIntegers(line: string) returns (ints: seq<int>)
    ensures ints == var t := TrimRight(line[SkipSpaces(line, 0)..]); if t == "" then [] else Numbers(Words(t, 0))
  {
    var t := TrimRight(line[SkipSpaces(line, 0)..]);
    if t == "" { return []; }
    var words := ParseListOfStrings(t);
    ints := [];
    for i := 0 to |words|
      invariant ints == Numbers(words[..i])
    {
      assert words[..i + 1] == words[..i] + [words[i]];
      NumbersSnoc(words[..i], words[i]);
      match StrToL(words[i])
      case Some(x) => ints := ints + [x];
      case None =>
    }
    assert words[..|words|] == words;
  }

  function Texts(ids: seq<int>): (t: seq<string>)
    ensures |t| == |ids| && forall i :: 0 <= i < |ids| ==> t[i] == Text(ids[i])
  {
    seq(|ids|, i requires 0 <= i < |ids| => Text(ids[i]))
  }

  lemma TextClean(x: int)
    ensures Clean(Text(x))
  {
  }

  lemma {:induction false} NumbersOfTexts(ids: seq<int>)
    ensures Numbers(Texts(ids)) == ids
    decreases |ids|
  {
    if |ids| > 0 {
      TextRoundTrip(ids[0]);
      assert Texts(ids)[1..] == Texts(ids[1..]);
      NumbersOfTexts(ids[1..]);
    }
  }

  lemma JoinEnds(list: seq<string>, sep: char)
    requires |list| > 0 && AllClean(list)
    ensures |Join(list, sep)| > 0 && Join(list, sep)[0] == list[0][0] && Join(list, sep)[|Join(list, sep)| - 1] == list[|list| - 1][|list[|list| - 1]| - 1]
    decreases |list|
  {
    if |list| > 1 { JoinEnds(list[1..], sep); }
  }

  /** The list of numbers is read back exactly. */
  lemma IdsRoundTrip(ids: seq<int>)
    ensures var line := Spaced(Join(Texts(ids), ','));
      var t := TrimRight(line[SkipSpaces(line, 0)..]);
      (if t == "" then [] else Numbers(Words(t, 0))) == ids
  {
    var words := Texts(ids);
    forall i | 0 <= i < |words| ensures Clean(words[i]) { TextClean(ids[i]); }
    SpacedJoin(words);
    var line := Join(words, ' ');
    if |ids| > 0 {
      JoinEnds(words, ' ');
      assert SkipSpaces(line, 0) == 0 && line[0..] == line && TrimRight(line) == line;
      WordsJoin(words, "", "");
      assert "" + "" + line == line;
      NumbersOfTexts(ids);
    }
  }

  // ----- tasks with arguments -----

  function TaskText(name: string, arguments: seq<string>): string {
    name + "[" + Join(arguments, ',') + "]"
  }

  /** plan.cpp:88-105. */
  method ParseTask(str: string) returns (task: string, arguments: seq<string>)
    ensures (task, arguments) == ParsedTask(str)
  {
    var pos: nat := 0;
    task := "";
    while pos < |str| && str[pos] != '['
      invariant pos <= |str| && task == str[..pos] && forall i :: 0 <= i < pos ==> str[i] != '['
    {
      task := task + [str[pos]];
      pos := pos + 1;
    }
    BracketAt(str, 0, pos);
    arguments := [];
    if pos != |str| {
      arguments := ParseListOfStrings(Spaced(Middle(str, pos)));
    }
  }

  /** substr(pos + 1, size - pos - 2): the text after the bracket without the last character. */
  function Middle(str: string, pos: nat): string
    requires pos < |str|
  {
    if pos + 1 < |str| then str[pos + 1..|str| - 1] else ""
  }

  function Bracket(str: string, pos: nat): (q: nat)
    requires pos <= |str|
    ensures pos <= q <= |str| && (forall i :: pos <= i < q ==> str[i] != '[') && (q < |str| ==> str[q] == '[')
    decreases |str| - pos
  {
    if pos < |str| && str[pos] != '[' then Bracket(str, pos + 1) else pos
  }

  lemma {:induction false} BracketAt(str: string, from: nat, pos: nat)
    requires from <= pos <= |str| && (forall i :: from <= i < pos ==> str[i] != '[') && (pos < |str| ==> str[pos] == '[')
    ensures Bracket(str, from) == pos
    decreases pos - from
  {
    if from < pos { BracketAt(str, from + 1, pos); }
  }

  function ParsedTask(str: string): (string, seq<string>) {
    var pos := Bracket(str, 0);
    (str[..pos], if pos == |str| then [] else Words(Spaced(Middle(str, pos)), 0))
  }

  /** A task is read back exactly if and only if it has an argument: without arguments, one empty argument is read. */
  lemma TaskRoundTrip(name: string, arguments: seq<string>)
    requires Without(name, '[') && AllClean(arguments)
    ensures ParsedTask(TaskText(name, arguments)) == (name, if |arguments| == 0 then [""] else arguments)
    ensures ParsedTask(TaskText(name, arguments)) == (name, arguments) <==> |arguments| > 0
  {
    var str, args := TaskText(name, arguments), Join(arguments, ',');
    assert str[..|name|] == name;
    assert forall i :: 0 <= i < |name| ==> str[i] == name[i];
    BracketAt(str, 0, |name|);
    assert Middle(str, |name|) == args;
    SpacedJoin(arguments);
    if |arguments| > 0 {
      WordsJoin(arguments, "", "");
      assert "" + "" + Spaced(args) == Spaced(args);
    }
  }

  // ----- names of inlined methods -----

  function InlineName(main: string, task: string, inner: string, position: int, ids: seq<int>): string {
    "<" + Body(main, task, inner, Text(position), Join(Texts(ids), ',')) + ">"
  }

  function Body(main: string, task: string, inner: string, position: string, ids: string): string {
    main + ";" + task + ";" + inner + ";" + position + ";" + ids
  }

  /** The nesting depth before the k-th character. */
  function Level(s: string, k: nat): int
    requires k <= |s|
  {
    if k == 0 then 0 else Level(s, k - 1) + (if s[k - 1] == '<' then 1 else if s[k - 1] == '>' then -1 else 0)
  }

  /** Angle brackets are balanced, and semicolons occur only between them. */
  ghost predicate WellNamed(s: string) {
    Level(s, |s|) == 0 && forall k :: 0 <= k < |s| ==> Level(s, k) >= 0 && (s[k] == ';' ==> Level(s, k) > 0)
  }

  predicate Plain(s: string) {
    Without(s, ';') && Without(s, '<') && Without(s, '>')
  }

  lemma {:induction false} PlainLevel(s: string, k: nat)
    requires Plain(s) && k <= |s|
    ensures Level(s, k) == 0
    decreases k
  {
    if k > 0 { PlainLevel(s, k - 1); }
  }

  lemma PlainWellNamed(s: string)
    requires Plain(s)
    ensures WellNamed(s)
  {
    forall k | 0 <= k <= |s| ensures Level(s, k) == 0 { PlainLevel(s, k); }
  }

  lemma {:induction false} LevelConcat(u: string, w: string, k: nat)
    requires k <= |w|
    ensures Level(u + w, |u| + k) == Level(u, |u|) + Level(w, k)
    decreases k
  {
    if k == 0 {
      LevelPrefix(u, w, |u|);
    } else {
      LevelConcat(u, w, k - 1);
      assert (u + w)[|u| + k - 1] == w[k - 1];
    }
  }

  lemma {:induction false} LevelPrefix(u: string, w: string, k: nat)
    requires k <= |u|
    ensures Level(u + w, k) == Level(u, k)
    decreases k
  {
    if k > 0 { LevelPrefix(u, w, k - 1); }
  }

  // ----- splitting (362-373) -----

  datatype Split = Split(level: int, blocks: seq<string>)

  /** The text joins the last block. */
  function AddTo(blocks: seq<string>, w: string): (r: seq<string>)
    requires |blocks| > 0
    ensures |r| == |blocks|
  {
    blocks[..|blocks| - 1] + [blocks[|blocks| - 1] + w]
  }

  function Step(t: Split, c: char): (r: Split)
    requires |t.blocks| > 0
    ensures |r.blocks| > 0
  {
    if t.level == 0 && c == ';' then t.(blocks := t.blocks + [""])
    else Split(if c == '<' then t.level + 1 else if c == '>' then t.level - 1 else t.level, AddTo(t.blocks, [c]))
  }

  function Splitting(s: string, k: nat): (t: Split)
    requires k <= |s|
    ensures |t.blocks| > 0
  {
    if k == 0 then Split(0, [""]) else Step(Splitting(s, k - 1), s[k - 1])
  }

  lemma {:induction false} SplitPrefix(u: string, w: string, k: nat)
    requires k <= |u|
    ensures Splitting(u + w, k) == Splitting(u, k)
    decreases k
  {
    if k > 0 { SplitPrefix(u, w, k - 1); }
  }

  lemma AddToMore(blocks: seq<string>, w: string, c: char)
    requires |blocks| > 0
    ensures AddTo(AddTo(blocks, w), [c]) == AddTo(blocks, w + [c])
  {
    assert blocks[|blocks| - 1] + (w + [c]) == blocks[|blocks| - 1] + w + [c];
  }

  lemma AddNothing(blocks: seq<string>)
    requires |blocks| > 0
    ensures AddTo(blocks, "") == blocks
  {
    assert blocks[|blocks| - 1] + "" == blocks[|blocks| - 1];
    assert blocks == blocks[..|blocks| - 1] + [blocks[|blocks| - 1]];
  }

  lemma AddFirst(done: seq<string>, w: string)
    ensures AddTo(done + [""], w) == done + [w]
  {
    assert "" + w == w;
    assert (done + [""])[..|done|] == done;
  }

  lemma NoSplit(w: string, k: nat)
    requires WellNamed(w) && k < |w|
    ensures w[k] == ';' ==> Level(w, k) > 0
  {
  }

  /** A well-formed name joins the last block. */
  lemma {:induction false} SplitName(u: string, w: string, k: nat)
    requires WellNamed(w) && k <= |w| && Splitting(u, |u|).level == 0
    ensures Splitting(u + w, |u| + k) == Split(Level(w, k), AddTo(Splitting(u, |u|).blocks, w[..k]))
    decreases k
  {
    hide WellNamed, AddTo;
    var blocks := Splitting(u, |u|).blocks;
    if k == 0 {
      SplitPrefix(u, w, |u|);
      AddNothing(blocks);
      assert w[..0] == "";
    } else {
      SplitName(u, w, k - 1);
      NoSplit(w, k - 1);
      assert w[..k] == w[..k - 1] + [w[k - 1]];
      AddToMore(blocks, w[..k - 1], w[k - 1]);
      SplitStep(u, w, k);
    }
  }

  lemma SplitStep(u: string, w: string, k: nat)
    requires 0 < k <= |w|
    ensures Splitting(u + w, |u| + k) == Step(Splitting(u + w, |u| + k - 1), w[k - 1])
  {
    hide Step;
    assert (u + w)[|u| + k - 1] == w[k - 1];
  }

  ghost predicate SplitInto(u: string, blocks: seq<string>) {
    Splitting(u, |u|) == Split(0, blocks)
  }

  /** One more block. */
  lemma SplitNext(u: string, done: seq<string>, w: string)
    requires WellNamed(w) && SplitInto(u, done + [""])
    ensures SplitInto(u + w, done + [w])
  {
    hide WellNamed, AddTo;
    SplitName(u, w, |w|);
    NamedLevel(w);
    assert w[..|w|] == w;
    AddFirst(done, w);
  }

  lemma NamedLevel(w: string)
    requires WellNamed(w)
    ensures Level(w, |w|) == 0
  {
  }

  lemma SplitEnd(v: string, blocks: seq<string>)
    requires SplitInto(v, blocks) && |blocks| > 0
    ensures SplitInto(v + ";", blocks + [""])
  {
    SplitPrefix(v, ";", |v|);
    SplitStep(v, ";", 1);
  }

  method SplitBlocks(name: string) returns (blocks: seq<string>)
    requires |name| >= 2
    ensures blocks == Splitting(name[1..|name| - 1], |name| - 2).blocks
  {
    var s := name[1..|name| - 1];
    var level := 0;
    blocks := [""];
    for i := 1 to |name| - 1
      invariant Splitting(s, i - 1) == Split(level, blocks)
    {
      assert s[i - 1] == name[i];
      if level == 0 && name[i] == ';' {
        blocks := blocks + [""];
        continue;
      }
      if name[i] == '<' { level := level + 1; }
      if name[i] == '>' { level := level - 1; }
      blocks := AddTo(blocks, [name[i]]);
    }
  }

  lemma {:induction false} JoinPlain(list: seq<string>)
    requires forall i :: 0 <= i < |list| ==> Plain(list[i])
    ensures Plain(Join(list, ','))
    decreases |list|
  {
    if |list| > 1 { JoinPlain(list[1..]); }
  }

  lemma NumberPlain(x: int)
    ensures Plain(Text(x))
  {
  }

  /** The five parts of a name are found again. */
  lemma SplitInlineName(main: string, task: string, inner: string, position: int, ids: seq<int>)
    requires WellNamed(main) && WellNamed(task) && WellNamed(inner)
    ensures var name := InlineName(main, task, inner, position, ids);
      |name| >= 2 && Splitting(name[1..|name| - 1], |name| - 2).blocks == [main, task, inner, Text(position), Join(Texts(ids), ',')]
  {
    var name, p, l := InlineName(main, task, inner, position, ids), Text(position), Join(Texts(ids), ',');
    forall i | 0 <= i < |ids| ensures Plain(Texts(ids)[i]) { NumberPlain(ids[i]); }
    JoinPlain(Texts(ids));
    NumberPlain(position);
    PlainWellNamed(p);
    PlainWellNamed(l);
    SplitBody(main, task, inner, p, l);
    NameBody(name, Body(main, task, inner, p, l));
  }

  lemma SplitBody(main: string, task: string, inner: string, p: string, l: string)
    requires WellNamed(main) && WellNamed(task) && WellNamed(inner) && WellNamed(p) && WellNamed(l)
    ensures SplitInto(Body(main, task, inner, p, l), [main, task, inner, p, l])
  {
    hide WellNamed, SplitInto;
    SplitFirst(main);
    SplitTwo(main, [main], task);
    SplitTwo(main + ";" + task, [main] + [task], inner);
    SplitTwo(main + ";" + task + ";" + inner, [main] + [task] + [inner], p);
    SplitTwo(main + ";" + task + ";" + inner + ";" + p, [main] + [task] + [inner] + [p], l);
    assert [main] + [task] + [inner] + [p] + [l] == [main, task, inner, p, l];
  }

  lemma SplitFirst(main: string)
    requires WellNamed(main)
    ensures SplitInto(main, [main])
  {
    hide WellNamed;
    SplitStart();
    assert [] + [""] == [""];
    SplitNext("", [], main);
    assert "" + main == main && [] + [main] == [main];
  }

  lemma SplitTwo(u: string, done: seq<string>, w: string)
    requires SplitInto(u, done) && |done| > 0 && WellNamed(w)
    ensures SplitInto(u + ";" + w, done + [w])
  {
    hide WellNamed, SplitInto;
    SplitEnd(u, done);
    SplitNext(u + ";", done, w);
  }

  lemma NameBody(name: string, body: string)
    requires name == "<" + body + ">"
    ensures |name| >= 2 && name[1..|name| - 1] == body
  {
  }

  lemma SplitStart()
    ensures SplitInto("", [""])
  {
  }

  /** Names stay well formed however often methods are inlined into each other. */
  lemma InlineNameWellNamed(main: string, task: string, inner: string, position: int, ids: seq<int>)
    requires WellNamed(main) && WellNamed(task) && WellNamed(inner)
    ensures WellNamed(InlineName(main, task, inner, position, ids))
  {
    var p, l := Text(position), Join(Texts(ids), ',');
    forall i | 0 <= i < |ids| ensures Plain(Texts(ids)[i]) { NumberPlain(ids[i]); }
    JoinPlain(Texts(ids));
    NumberPlain(position);
    PlainWellNamed(p);
    PlainWellNamed(l);
    hide WellNamed, Plain, Join, Text;
    InnerPart(main);
    InnerPart(task);
    InnerPart(inner);
    InnerPart(p);
    InnerPart(l);
    Semicolon();
    InnerTwo(main, task);
    InnerTwo(main + ";" + task, inner);
    InnerTwo(main + ";" + task + ";" + inner, p);
    InnerTwo(main + ";" + task + ";" + inner + ";" + p, l);
    Wrapped(Body(main, task, inner, p, l));
  }

  /** Balanced text, semicolons anywhere. */
  ghost predicate Balanced(s: string) {
    Level(s, |s|) == 0 && forall k :: 0 <= k < |s| ==> Level(s, k) >= 0
  }

  lemma InnerPart(w: string)
    requires WellNamed(w)
    ensures Balanced(w)
  {
  }

  lemma Semicolon()
    ensures Balanced(";")
  {
    assert Level(";", 1) == Level(";", 0) == 0;
  }

  lemma BalancedConcat(u: string, w: string)
    requires Balanced(u) && Balanced(w)
    ensures Balanced(u + w)
  {
    LevelConcat(u, w, |w|);
    forall k | 0 <= k < |u + w| ensures Level(u + w, k) >= 0 {
      if k < |u| { LevelPrefix(u, w, k); } else { LevelConcat(u, w, k - |u|); }
    }
  }

  lemma InnerTwo(u: string, w: string)
    requires Balanced(u) && Balanced(w)
    ensures Balanced(u + ";" + w)
  {
    hide Balanced;
    Semicolon();
    BalancedConcat(u, ";");
    BalancedConcat(u + ";", w);
  }

  lemma Wrapped(body: string)
    requires Balanced(body)
    ensures WellNamed("<" + body + ">")
  {
    var u := "<" + body;
    forall k | 0 <= k <= |body| ensures Level(u, k + 1) == 1 + Level(body, k) { LevelConcat("<", body, k); }
    forall k | 0 <= k <= |u| ensures Level(u + ">", k) == Level(u, k) { LevelPrefix(u, ">", k); }
    forall k | 0 <= k < |u + ">"| ensures Level(u + ">", k) >= 0 && ((u + ">")[k] == ';' ==> Level(u + ">", k) > 0) {
      if k > 0 { assert Level(u, k) == 1 + Level(body, k - 1); }
    }
  }

  /** The text of a task is well formed when its parts are plain. */
  lemma TaskTextWellNamed(name: string, arguments: seq<string>)
    requires Plain(name) && forall i :: 0 <= i < |arguments| ==> Plain(arguments[i])
    ensures WellNamed(TaskText(name, arguments))
  {
    JoinPlain(arguments);
    PlainWellNamed(TaskText(name, arguments));
  }

  // ----- positions -----

  /** Where the subtasks of a method come from when the task at the given position has been replaced by k subtasks:
      old positions, or -j-1 for position j of the inlined method. */
  function IdMap(n: nat, position: nat, k: nat): (ids: seq<int>)
    requires position < n
    ensures |ids| == n - 1 + k
    ensures forall i :: 0 <= i < |ids| ==> ids[i] == IdAt(position, k, i)
  {
    seq(n - 1 + k, i requires 0 <= i < n - 1 + k => IdAt(position, k, i))
  }

  function IdAt(position: nat, k: nat, i: nat): int {
    if i < position then i else if i < position + k then position - i - 1 else i + 1 - k
  }
}
