/** The law an option scanner is for: options written in any of the allowed ways are reported with
    their arguments, in order, and operands are left over. */
module WrittenOptions {
  import opened Optional
  import opened Getopt

  /** An argument: none, in the same word, or the next word. */
  datatype Arg = NoArg | Attached(text: Word) | Separate(text: Word)

  /** Options and operands as a user means them: letters in one word, of which the last may have an
      argument, `-abXARG`; a long option, `--name=ARG`, or with one dash; a long option behind the
      letter W; and an operand. */
  datatype Written =
    | Letters(plain: string, last: char, arg: Arg)
    | Long(name: Word, single: bool, arg: Arg)
    | Behind(name: Word, apart: bool, arg: Arg)
    | Operand(word: Word)

  /** A text with an argument, in one word or in two. */
  function With(text: Word, sign: Word, arg: Arg): (r: seq<Word>)
    ensures |r| > 0
  {
    match arg
    case NoArg => [text]
    case Attached(t) => [text + sign + t]
    case Separate(t) => [text, t]
  }

  /** The words that are written. */
  function Render(w: Written): (r: seq<Word>)
    ensures |r| > 0
  {
    match w
    case Letters(plain, last, arg) => With("-" + plain + [last], "", arg)
    case Long(name, single, arg) => With((if single then "-" else "--") + name, "=", arg)
    case Behind(name, apart, arg) => if apart then ["-W"] + With(name, "=", arg) else With("-W" + name, "=", arg)
    case Operand(word) => [word]
  }

  function Rendered(ws: seq<Written>): seq<Word> {
    if ws == [] then [] else Render(ws[0]) + Rendered(ws[1..])
  }

  /** The option string lists the letter, with so many colons behind it. */
  ghost predicate Lists(letters: string, x: char, kind: HasArg) {
    exists a, b :: ListedBetween(letters, x, kind, a, b)
  }

  ghost predicate ListedBetween(letters: string, x: char, kind: HasArg, a: string, b: string) {
    && x != ':' && letters == a + [x] + b && x !in a
    && kind == if "::" <= b then OptionalArgument else if ":" <= b then RequiredArgument else NoArgument
  }

  ghost predicate Unlisted(letters: string, x: char) {
    x == ':' || x !in letters
  }

  /** The name of a long option: what comes before an equals sign. */
  ghost predicate NamedBy(text: Word, name: Word) {
    '=' !in name && (text == name || name + "=" <= text)
  }

  /** The letter opens long options: it is a W with a semicolon. */
  ghost predicate OpensLong(c: Config, x: char) {
    c.longs.Some? && x == 'W' && exists a, b :: OpenedBetween(c.letters, a, b)
  }

  ghost predicate OpenedBetween(letters: string, a: string, b: string) {
    letters == a + "W;" + b && 'W' !in a
  }

  /** The text after a dash is read as letters: when a single dash may introduce a long option, none has such a name. */
  ghost predicate ReadAsLetters(c: Config, text: Word) {
    && text != "" && text[0] != '-'
    && (c.longs.Some? && c.longOnly ==>
          text[0] != ':' && text[0] in c.letters && forall name :: NamedBy(text, name) ==> Means(c.longs.value, name, true, Unknown))
  }

  /** Without an argument where one is required, nothing may follow. */
  ghost predicate Suits(kind: HasArg, arg: Arg, atEnd: bool) {
    match arg
    case NoArg => kind == RequiredArgument ==> atEnd
    case Attached(_) => true
    case Separate(_) => kind == RequiredArgument
  }

  ghost predicate AllowedLetters(c: Config, w: Written, atEnd: bool)
    requires w.Letters?
  {
    && (forall k :: 0 <= k <= |w.plain| ==> ReadAsLetters(c, (w.plain + [w.last] + Tight(w.arg))[k..]))
    && (forall x :: x in w.plain ==> (Lists(c.letters, x, NoArgument) || Unlisted(c.letters, x)) && !OpensLong(c, x))
    && !OpensLong(c, w.last)
    && (w.arg.Attached? ==> w.arg.text != "" && (Lists(c.letters, w.last, RequiredArgument) || Lists(c.letters, w.last, OptionalArgument)))
    && (Unlisted(c.letters, w.last) ==> w.arg.NoArg?)
    && forall kind :: Lists(c.letters, w.last, kind) ==> Suits(kind, w.arg, atEnd)
  }

  /** The argument's text as far as it is in the same word. */
  function Tight(arg: Arg): Word {
    if arg.Attached? then arg.text else ""
  }

  /** A single letter that is also a short option does not abbreviate a long one behind one dash. */
  ghost predicate ShortToo(c: Config, w: Written)
    requires w.Long?
  {
    w.single && w.name != "" && w.name[0] != ':' && w.name[0] in c.letters
  }

  ghost predicate AllowedLong(c: Config, w: Written, atEnd: bool)
    requires w.Long? || w.Behind?
  {
    && c.longs.Some? && '=' !in w.name
    && (if w.Long? then Render(w)[0] != "--" && (w.single ==> c.longOnly && w.name != "" && w.name[0] != '-')
        else OpensLong(c, 'W') && (w.apart || Render(w)[0] != "-W") && ReadAsLetters(c, Render(w)[0][1..]))
    && match MatchOf(c.longs.value, w.name, w.Long? && ShortToo(c, w))
       case Found(i) => i < |c.longs.value| && Suits(c.longs.value[i].hasArg, w.arg, atEnd)
       case Ambiguous => !w.arg.Separate?
       case Unknown => !w.arg.Separate? && !(w.Long? && ShortToo(c, w))
  }

  ghost predicate Allowed(c: Config, w: Written, atEnd: bool) {
    match w
    case Letters(_, _, _) => AllowedLetters(c, w, atEnd)
    case Long(_, _, _) => AllowedLong(c, w, atEnd)
    case Behind(_, _, _) => AllowedLong(c, w, atEnd)
    case Operand(word) => IsOperand(c, word)
  }

  ghost predicate AllAllowed(c: Config, ws: seq<Written>, atEnd: bool) {
    forall i :: 0 <= i < |ws| ==> Allowed(c, ws[i], atEnd && i == |ws| - 1)
  }

  function Text(arg: Arg): Option<Word> {
    if arg.NoArg? then None else Some(arg.text)
  }

  ghost function CodeOf(c: Config, x: char): Code {
    if Unlisted(c.letters, x) then Illegal else Letter(x)
  }

  ghost function LetterEvents(c: Config, plain: string): seq<Event> {
    if plain == "" then [] else [Event(CodeOf(c, plain[0]), None)] + LetterEvents(c, plain[1..])
  }

  ghost function LastEvent(c: Config, last: char, arg: Arg): Event {
    if arg.NoArg? && Lists(c.letters, last, RequiredArgument) then Event(BadArgument, None) else Event(CodeOf(c, last), Text(arg))
  }

  /** A forbidden argument and a missing one are reported as such, and so is a name that means nothing or too much. */
  ghost function LongEvent(longs: seq<LongOption>, name: Word, shortToo: bool, arg: Arg): Event {
    match MatchOf(longs, name, shortToo)
    case Found(i) =>
      if i >= |longs| || (longs[i].hasArg == NoArgument && !arg.NoArg?) || (longs[i].hasArg == RequiredArgument && arg.NoArg?)
      then Event(BadArgument, None)
      else Event(if longs[i].flag.Some? then FlagSet(i) else Value(longs[i].val), Text(arg))
    case _ => Event(Illegal, None)
  }

  /** What is to be reported of one thing written. */
  ghost function EventsOf(c: Config, w: Written): seq<Event> {
    match w
    case Letters(plain, last, arg) => LetterEvents(c, plain) + [LastEvent(c, last, arg)]
    case Long(name, _, arg) => if c.longs.None? then [] else [LongEvent(c.longs.value, name, ShortToo(c, w), arg)]
    case Behind(name, _, arg) => if c.longs.None? then [] else [LongEvent(c.longs.value, name, false, arg)]
    case Operand(_) => []
  }

  ghost function AllEvents(c: Config, ws: seq<Written>): seq<Event> {
    if ws == [] then [] else EventsOf(c, ws[0]) + AllEvents(c, ws[1..])
  }

  function OperandsOf(ws: seq<Written>): seq<Word> {
    if ws == [] then [] else (if ws[0].Operand? then [ws[0].word] else []) + OperandsOf(ws[1..])
  }

  function OptionsOf(ws: seq<Written>): seq<Word> {
    if ws == [] then [] else (if ws[0].Operand? then [] else Render(ws[0])) + OptionsOf(ws[1..])
  }

  lemma IndexIs(s: Word, x: char, a: string, b: string)
    requires s == a + [x] + b && x !in a
    ensures Index(s, x) == |a|
  {
    assert s[|a|] == x;
    forall i | 0 <= i < |a| ensures s[i] != x { assert s[i] == a[i] && a[i] in a; }
  }

  /** The argument that the place after a letter asks for. */
  function KindAt(letters: string, i: nat): HasArg {
    if CharAt(letters, i + 1) != ':' then NoArgument
    else if CharAt(letters, i + 2) == ':' then OptionalArgument else RequiredArgument
  }

  lemma ListedIs(letters: string, x: char, kind: HasArg)
    requires Lists(letters, x, kind)
    ensures x != ':' && Index(letters, x) < |letters| && kind == KindAt(letters, Index(letters, x)) && !Unlisted(letters, x)
  {
    var a, b :| ListedBetween(letters, x, kind, a, b);
    IndexIs(letters, x, a, b);
    assert b == letters[|a| + 1..];
  }

  lemma KindIs(letters: string, x: char)
    requires x != ':' && Index(letters, x) < |letters|
    ensures Lists(letters, x, KindAt(letters, Index(letters, x)))
  {
    var i := Index(letters, x);
    var a, b := letters[..i], letters[i + 1..];
    assert letters == a + [x] + b;
    assert ListedBetween(letters, x, KindAt(letters, i), a, b);
  }

  /** What the option string says of a letter, read where the scanner reads it. */
  lemma ListsIs(letters: string, x: char)
    ensures x != ':' ==> (Index(letters, x) == |letters| <==> Unlisted(letters, x))
    ensures forall kind :: Lists(letters, x, kind) <==>
              x != ':' && Index(letters, x) < |letters| && kind == KindAt(letters, Index(letters, x))
  {
    hide KindAt, Lists;
    forall kind | Lists(letters, x, kind)
      ensures x != ':' && Index(letters, x) < |letters| && kind == KindAt(letters, Index(letters, x))
    {
      ListedIs(letters, x, kind);
    }
    if x != ':' && Index(letters, x) < |letters| { KindIs(letters, x); }
  }

  lemma OpensIs(c: Config, x: char)
    ensures OpensLong(c, x) <==>
              c.longs.Some? && x == 'W' && Index(c.letters, 'W') < |c.letters| && CharAt(c.letters, Index(c.letters, 'W') + 1) == ';'
  {
    var i := Index(c.letters, 'W');
    if OpensLong(c, x) {
      var a, b :| OpenedBetween(c.letters, a, b);
      assert c.letters == a + ['W'] + ([';'] + b);
      IndexIs(c.letters, 'W', a, [';'] + b);
    }
    if x == 'W' && i < |c.letters| && CharAt(c.letters, i + 1) == ';' {
      var a, b := c.letters[..i], c.letters[i + 2..];
      assert c.letters == a + "W;" + b;
      assert forall j :: 0 <= j < |a| ==> a[j] == c.letters[j];
      assert OpenedBetween(c.letters, a, b);
    }
  }

  /** A long option is reported as it was written, whichever words it takes. */
  lemma LongAsWritten(c: Config, longs: seq<LongOption>, name: Word, arg: Arg, shortToo: bool, words: seq<Word>, base: nat, more: seq<Word>)
    requires '=' !in name && base <= |words| && words[base..] == (if arg.Separate? then [arg.text] else []) + more
    requires match MatchOf(longs, name, shortToo)
             case Found(i) => i < |longs| && Suits(longs[i].hasArg, arg, more == [])
             case Ambiguous => !arg.Separate?
             case Unknown => !arg.Separate? && !shortToo
    ensures var cur := if arg.Attached? then name + "=" + arg.text else name;
            var e := LongEvent(longs, name, shortToo, arg);
            LongStep(c, longs, cur, shortToo, words, base) == Some(Take(if arg.Separate? then base + 1 else base, e.code, e.arg))
  {
    hide MatchOf, Means;
    var cur := if arg.Attached? then name + "=" + arg.text else name;
    if arg.Attached? {
      IndexIs(cur, '=', name, arg.text);
      assert cur == name + ['='] + arg.text;
    }
    assert NameOf(cur) == name && ArgOf(cur) == (if arg.Attached? then Some(arg.text) else None);
    if arg.Separate? { assert words[base] == words[base..][0] == arg.text; }
  }

  /** The argument of a name in a word of its own. */
  function Tied(name: Word, arg: Arg): Word {
    if arg.Attached? then name + "=" + arg.text else name
  }

  /** The last letter of a word. */
  lemma LastAsWritten(c: Config, last: char, arg: Arg, words: seq<Word>, more: seq<Word>)
    requires words != [] && words[1..] == (if arg.Separate? then [arg.text] else []) + more
    requires last != '-' && !OpensLong(c, last)
    requires arg.Attached? ==> arg.text != "" && (Lists(c.letters, last, RequiredArgument) || Lists(c.letters, last, OptionalArgument))
    requires Unlisted(c.letters, last) ==> arg.NoArg?
    requires forall kind :: Lists(c.letters, last, kind) ==> Suits(kind, arg, more == [])
    ensures var e := LastEvent(c, last, arg);
            ShortStep(c, [last] + Tight(arg), words) == Take(if arg.Separate? then 2 else 1, e.code, e.arg)
  {
    ListsIs(c.letters, last);
    OpensIs(c, last);
    hide Lists, OpensLong, LongStep;
    var kind := KindAt(c.letters, Index(c.letters, last));
    assert Index(c.letters, last) < |c.letters| && last != ':' ==> Lists(c.letters, last, kind);
    assert Lists(c.letters, last, kind) ==> Suits(kind, arg, more == []);
    assert ([last] + Tight(arg))[1..] == Tight(arg);
    if arg.Separate? { assert words[1] == words[1..][0] == arg.text; }
  }

  /** A letter with others behind it. */
  lemma LetterAsWritten(c: Config, x: char, rest: Word, words: seq<Word>)
    requires words != [] && rest != "" && x != '-' && !OpensLong(c, x)
    requires Lists(c.letters, x, NoArgument) || Unlisted(c.letters, x)
    ensures ShortStep(c, [x] + rest, words) == Stay(rest, CodeOf(c, x))
  {
    ListsIs(c.letters, x);
    OpensIs(c, x);
    hide Lists, OpensLong, LongStep;
    assert ([x] + rest)[1..] == rest;
  }

  lemma NameBefore(text: Word)
    ensures NamedBy(text, NameOf(text))
  {
    if Index(text, '=') < |text| { assert NameOf(text) + "=" == text[..Index(text, '=') + 1]; }
  }

  /** A text read as letters is. */
  lemma ReadsLetters(c: Config, text: Word, words: seq<Word>)
    requires ReadAsLetters(c, text) && words != []
    ensures StepOf(c, text, false, words) == ShortStep(c, text, words)
  {
    hide ShortStep;
    if c.longs.Some? && c.longOnly {
      ListsIs(c.letters, text[0]);
      NameBefore(text);
      hide Means, MatchOf, Lists;
      MeansOnce(c.longs.value, NameOf(text), true, MatchOf(c.longs.value, NameOf(text), true), Unknown);
    }
  }

  /** What a thing written adds to how the words behind it are sorted out. */
  ghost predicate AddsWord(w: Written, events: seq<Event>, p: Parts, q: Parts) {
    && q.rest == p.rest && q.quits == p.quits && q.operands == (if w.Operand? then [w.word] else []) + p.operands
    && q.options == (if w.Operand? then [] else Render(w)) + p.options && q.events == events + p.events
  }

  lemma NoDash(c: Config, text: Word)
    requires ReadAsLetters(c, text)
    ensures text != "" && text[0] != '-'
  {
  }

  lemma AllowedRest(c: Config, plain: string, last: char, arg: Arg, atEnd: bool)
    requires plain != "" && AllowedLetters(c, Letters(plain, last, arg), atEnd)
    ensures AllowedLetters(c, Letters(plain[1..], last, arg), atEnd)
    ensures ReadAsLetters(c, plain + [last] + Tight(arg)) && plain[0] != '-' && !OpensLong(c, plain[0])
    ensures Lists(c.letters, plain[0], NoArgument) || Unlisted(c.letters, plain[0])
  {
    hide ReadAsLetters, OpensLong, Lists, Unlisted, Suits;
    var place, rest := plain + [last] + Tight(arg), plain[1..] + [last] + Tight(arg);
    assert place[0..] == place;
    NoDash(c, place[0..]);
    forall k | 0 <= k <= |plain[1..]| ensures ReadAsLetters(c, rest[k..]) {
      assert rest[k..] == place[k + 1..];
      assert ReadAsLetters(c, place[k + 1..]);
    }
    assert plain[0] in plain && forall x :: x in plain[1..] ==> x in plain;
  }

  lemma AllowedLast(c: Config, last: char, arg: Arg, atEnd: bool)
    requires AllowedLetters(c, Letters("", last, arg), atEnd)
    ensures ReadAsLetters(c, [last] + Tight(arg)) && last != '-' && !OpensLong(c, last)
    ensures arg.Attached? ==> arg.text != "" && (Lists(c.letters, last, RequiredArgument) || Lists(c.letters, last, OptionalArgument))
    ensures Unlisted(c.letters, last) ==> arg.NoArg?
    ensures forall kind :: Lists(c.letters, last, kind) ==> Suits(kind, arg, atEnd)
  {
    hide ReadAsLetters, OpensLong, Lists, Unlisted, Suits;
    var place := "" + [last] + Tight(arg);
    assert place[0..] == [last] + Tight(arg);
    assert ReadAsLetters(c, place[0..]);
    NoDash(c, place[0..]);
  }

  /** Letters from some letter of a word on. */
  lemma {:induction false} LettersAsWritten(c: Config, plain: string, last: char, arg: Arg, words: seq<Word>, more: seq<Word>)
    requires words != [] && words[1..] == (if arg.Separate? then [arg.text] else []) + more
    requires AllowedLetters(c, Letters(plain, last, arg), more == [])
    ensures var p, q := Split(c, more), SplitWord(c, plain + [last] + Tight(arg), false, words);
            && q.rest == p.rest && q.quits == p.quits && q.operands == p.operands
            && q.options == words[..if arg.Separate? then 2 else 1] + p.options
            && q.events == LetterEvents(c, plain) + [LastEvent(c, last, arg)] + p.events
    decreases |plain|
  {
    hide AllowedLetters, ReadAsLetters, OpensLong, Lists, Unlisted, Suits, StepOf, ShortStep, LastEvent, CodeOf;
    var place := plain + [last] + Tight(arg);
    if plain == "" {
      assert place == [last] + Tight(arg);
      AllowedLast(c, last, arg, more == []);
      ReadsLetters(c, place, words);
      LastAsWritten(c, last, arg, words, more);
      assert words[if arg.Separate? then 2 else 1..] == words[1..][if arg.Separate? then 1 else 0..] == more;
    } else {
      var rest := plain[1..] + [last] + Tight(arg);
      assert place == [plain[0]] + rest;
      AllowedRest(c, plain, last, arg, more == []);
      ReadsLetters(c, place, words);
      LetterAsWritten(c, plain[0], rest, words);
      LettersAsWritten(c, plain[1..], last, arg, words, more);
    }
  }

  /** A word that takes so many words with it. */
  lemma WordTaken(c: Config, w: Written, words: seq<Word>, more: seq<Word>, e: Event)
    requires !w.Operand? && words == Render(w) + more
    requires words[0] != "" && words[0][0] == '-' && |words[0]| > 1 && words[0] != "--"
    requires StepOf(c, words[0][1..], false, words) == Take(|Render(w)|, e.code, e.arg)
    ensures AddsWord(w, [e], Split(c, more), Split(c, words))
  {
    hide StepOf, Render;
    assert words[|Render(w)|..] == more && words[..|Render(w)|] == Render(w);
  }

  /** A long option behind one dash or two. */
  lemma LongStepOf(c: Config, w: Written, words: seq<Word>, more: seq<Word>)
    requires w.Long? && words == Render(w) + more && AllowedLong(c, w, more == [])
    ensures words[0] != "" && words[0][0] == '-' && |words[0]| > 1 && words[0] != "--" && EventsOf(c, w) != []
    ensures var e := EventsOf(c, w)[0]; StepOf(c, words[0][1..], false, words) == Take(|Render(w)|, e.code, e.arg)
  {
    hide MatchOf, LongStep, LongEvent, Means, Suits, ShortToo, StepOf, Render;
    var cur := Tied(w.name, w.arg);
    LongText(w, words, more);
    LongAsWritten(c, c.longs.value, w.name, w.arg, ShortToo(c, w), words, 1, more);
    if w.single {
      ShortTooIs(c, w);
      OneDash(c, cur, words);
    } else {
      NotShort(c, w);
      TwoDashes(c, cur, words);
    }
  }

  lemma LongText(w: Written, words: seq<Word>, more: seq<Word>)
    requires w.Long? && words == Render(w) + more
    ensures Render(w)[0] == words[0] == (if w.single then "-" else "--") + Tied(w.name, w.arg)
    ensures words[0][1..] == (if w.single then Tied(w.name, w.arg) else "-" + Tied(w.name, w.arg))
    ensures words[1..] == (if w.arg.Separate? then [w.arg.text] else []) + more && |Render(w)| == if w.arg.Separate? then 2 else 1
  {
    var front := if w.single then "-" else "--";
    assert With(front + w.name, "=", w.arg)[0] == front + Tied(w.name, w.arg);
    assert words[0] == front + Tied(w.name, w.arg);
  }

  lemma ShortTooIs(c: Config, w: Written)
    requires w.Long? && w.single && w.name != "" && w.name[0] != '-'
    ensures ShortToo(c, w) == AlsoShort(c, w.name[0])
  {
    ListsIs(c.letters, w.name[0]);
  }

  lemma NotShort(c: Config, w: Written)
    requires w.Long? && !w.single
    ensures !ShortToo(c, w)
  {
  }

  predicate AlsoShort(c: Config, x: char) {
    x != '-' && x != ':' && Index(c.letters, x) < |c.letters|
  }

  lemma OneDash(c: Config, cur: Word, words: seq<Word>)
    requires words != [] && c.longs.Some? && c.longOnly && cur != "" && cur[0] != '-'
    requires LongStep(c, c.longs.value, cur, AlsoShort(c, cur[0]), words, 1).Some?
    ensures StepOf(c, cur, false, words) == LongStep(c, c.longs.value, cur, AlsoShort(c, cur[0]), words, 1).value
  {
    hide LongStep, ShortStep;
  }

  lemma TwoDashes(c: Config, cur: Word, words: seq<Word>)
    requires words != [] && c.longs.Some? && LongStep(c, c.longs.value, cur, false, words, 1).Some?
    ensures StepOf(c, "-" + cur, false, words) == LongStep(c, c.longs.value, cur, false, words, 1).value
  {
    hide LongStep, ShortStep;
    assert ("-" + cur)[1..] == cur;
  }

  /** A long option behind a W. */
  lemma BehindStepOf(c: Config, w: Written, words: seq<Word>, more: seq<Word>)
    requires w.Behind? && words == Render(w) + more && AllowedLong(c, w, more == [])
    ensures words[0] != "" && words[0][0] == '-' && |words[0]| > 1 && words[0] != "--" && EventsOf(c, w) != []
    ensures var e := EventsOf(c, w)[0]; StepOf(c, words[0][1..], false, words) == Take(|Render(w)|, e.code, e.arg)
  {
    hide MatchOf, LongStep, LongEvent, Means, Suits, ReadAsLetters, OpensLong, Render;
    OpensIs(c, 'W');
    BehindText(w, words, more);
    ReadsLetters(c, words[0][1..], words);
    LongAsWritten(c, c.longs.value, w.name, w.arg, false, words, if w.apart then 2 else 1, more);
  }

  lemma BehindText(w: Written, words: seq<Word>, more: seq<Word>)
    requires w.Behind? && words == Render(w) + more
    ensures |Render(w)| == (if w.apart then 2 else 1) + if w.arg.Separate? then 1 else 0
    ensures Render(w)[0] == words[0] == (if w.apart then "-W" else "-W" + Tied(w.name, w.arg)) && words[0][1..][0] == 'W'
    ensures words[0][1..][1..] == if w.apart then "" else Tied(w.name, w.arg)
    ensures w.apart ==> words[1] == Tied(w.name, w.arg)
    ensures words[if w.apart then 2 else 1..] == (if w.arg.Separate? then [w.arg.text] else []) + more
  {
    var cur := Tied(w.name, w.arg);
    assert words[0] == if w.apart then "-W" else "-W" + cur;
  }

  lemma LettersWordAsWritten(c: Config, w: Written, words: seq<Word>, more: seq<Word>)
    requires w.Letters? && words == Render(w) + more && AllowedLetters(c, w, more == [])
    ensures AddsWord(w, EventsOf(c, w), Split(c, more), Split(c, words))
  {
    hide AllowedLetters, LastEvent, SplitWord;
    var place := w.plain + [w.last] + Tight(w.arg);
    LettersBegin(c, w, more == []);
    assert words[0] == "-" + place && words[0][1..] == place;
    assert words[1..] == (if w.arg.Separate? then [w.arg.text] else []) + more;
    assert words[..if w.arg.Separate? then 2 else 1] == Render(w);
    LettersAsWritten(c, w.plain, w.last, w.arg, words, more);
  }

  lemma LettersBegin(c: Config, w: Written, atEnd: bool)
    requires w.Letters? && AllowedLetters(c, w, atEnd)
    ensures var place := w.plain + [w.last] + Tight(w.arg); place != "" && place[0] != '-'
  {
    hide AllowedLetters;
    if w.plain == "" { AllowedLast(c, w.last, w.arg, atEnd); } else { AllowedRest(c, w.plain, w.last, w.arg, atEnd); }
  }

  lemma OperandAsWritten(c: Config, word: Word, more: seq<Word>)
    requires IsOperand(c, word)
    ensures AddsWord(Written.Operand(word), EventsOf(c, Written.Operand(word)), Split(c, more), Split(c, [word] + more))
  {
    hide IsOperand, SplitWord, StepOf;
    assert ([word] + more)[0] == word && ([word] + more)[1..] == more;
  }

  /** One thing written is reported as what it is, in front of whatever follows. */
  lemma OneAsWritten(c: Config, w: Written, more: seq<Word>)
    requires Allowed(c, w, more == [])
    ensures AddsWord(w, EventsOf(c, w), Split(c, more), Split(c, Render(w) + more))
  {
    hide AllowedLetters, AllowedLong, EventsOf, AddsWord, StepOf;
    var words := Render(w) + more;
    match w {
      case Letters(_, _, _) => LettersWordAsWritten(c, w, words, more);
      case Long(_, _, _) =>
        LongStepOf(c, w, words, more);
        OneEvent(c, w);
        WordTaken(c, w, words, more, EventsOf(c, w)[0]);
      case Behind(_, _, _) =>
        BehindStepOf(c, w, words, more);
        OneEvent(c, w);
        WordTaken(c, w, words, more, EventsOf(c, w)[0]);
      case Operand(word) => OperandAsWritten(c, word, more);
    }
  }

  lemma OneEvent(c: Config, w: Written)
    requires !w.Letters?
    ensures |EventsOf(c, w)| <= 1 && (EventsOf(c, w) != [] ==> EventsOf(c, w) == [EventsOf(c, w)[0]])
  {
  }

  lemma RenderedParts(ws: seq<Written>)
    ensures ws != [] ==> Rendered(ws) != []
  {
  }

  /** The first thing written, and the rest. */
  lemma FirstWritten(c: Config, ws: seq<Written>, tail: seq<Word>)
    requires ws != [] && AllAllowed(c, ws, tail == [])
    ensures Rendered(ws) + tail == Render(ws[0]) + (Rendered(ws[1..]) + tail)
    ensures Allowed(c, ws[0], Rendered(ws[1..]) + tail == []) && AllAllowed(c, ws[1..], tail == [])
  {
    hide Allowed, Render;
    RenderedParts(ws[1..]);
    assert Allowed(c, ws[0], tail == [] && 0 == |ws| - 1);
    forall i | 0 <= i < |ws[1..]| ensures Allowed(c, ws[1..][i], tail == [] && i == |ws[1..]| - 1) {
      assert Allowed(c, ws[i + 1], tail == [] && i + 1 == |ws| - 1);
    }
  }

  /** What a scan has to make of things written and what follows a "--". */
  ghost predicate AsWritten(c: Config, ws: seq<Written>, tail: seq<Word>, p: Parts) {
    && p.events == AllEvents(c, ws) && p.operands == OperandsOf(ws) && !p.quits
    && p.options + p.rest == OptionsOf(ws) + tail && |p.rest| == if tail == [] then 0 else |tail| - 1
  }

  lemma WrittenMore(c: Config, ws: seq<Written>, tail: seq<Word>, p: Parts, q: Parts)
    requires ws != [] && AsWritten(c, ws[1..], tail, p) && AddsWord(ws[0], EventsOf(c, ws[0]), p, q)
    ensures AsWritten(c, ws, tail, q)
  {
    hide EventsOf, Render;
    var front := if ws[0].Operand? then [] else Render(ws[0]);
    assert front + p.options + p.rest == front + (p.options + p.rest);
  }

  /** Everything written is reported as what it is: each option with its argument, in order, and what is forbidden,
      missing or unknown as that; operands are left over, in order, and so is everything after a "--". */
  lemma {:induction false} ScansAsWritten(c: Config, ws: seq<Written>, tail: seq<Word>)
    requires tail == [] || tail[0] == "--"
    requires AllAllowed(c, ws, tail == [])
    ensures AsWritten(c, ws, tail, Split(c, Rendered(ws) + tail))
    decreases |ws|
  {
    hide Allowed, AllAllowed, EventsOf, Render, Split, AddsWord, AsWritten;
    if ws == [] {
      assert Rendered(ws) + tail == tail;
      TailSplit(c, tail);
    } else {
      FirstWritten(c, ws, tail);
      OneAsWritten(c, ws[0], Rendered(ws[1..]) + tail);
      ScansAsWritten(c, ws[1..], tail);
      WrittenMore(c, ws, tail, Split(c, Rendered(ws[1..]) + tail), Split(c, Rendered(ws) + tail));
    }
  }

  lemma TailSplit(c: Config, tail: seq<Word>)
    requires tail == [] || tail[0] == "--"
    ensures AsWritten(c, [], tail, Split(c, tail))
  {
  }

  /** The vector that a scan leaves, and its index: the options, the operands, and what follows a "--". */
  lemma LeftAsWritten(c: Config, ws: seq<Written>, tail: seq<Word>, v: seq<Word>, orig: seq<Word>, first: nat, optind: nat)
    requires tail == [] || tail[0] == "--"
    requires AllAllowed(c, ws, tail == [])
    requires first <= |orig| && orig[first..] == Rendered(ws) + tail
    requires Arranged(v, orig, first, optind, Split(c, Rendered(ws) + tail))
    ensures var end := if tail == [] then [] else ["--"];
            && v == orig[..first] + OptionsOf(ws) + end + OperandsOf(ws) + tail[|end|..]
            && optind == first + |OptionsOf(ws)| + |end|
  {
    hide AllAllowed, Split, AllEvents, OptionsOf, OperandsOf, Rendered;
    ScansAsWritten(c, ws, tail);
    var p := Split(c, Rendered(ws) + tail);
    var end := if tail == [] then [] else ["--"];
    assert tail == end + tail[|end|..];
    assert p.options + p.rest == (OptionsOf(ws) + end) + tail[|end|..];
    assert p.options == (p.options + p.rest)[..|p.options|] == OptionsOf(ws) + end;
    assert p.rest == (p.options + p.rest)[|p.options|..] == tail[|end|..];
  }

  /** The options of the launcher. */
  function Launcher(): Config {
    Config(":t:p:c:d:s", Some([
      LongOption("launch-target", RequiredArgument, None, 't' as int),
      LongOption("game-path", RequiredArgument, None, 'p' as int),
      LongOption("config", RequiredArgument, None, 'c' as int),
      LongOption("modloader-dll", RequiredArgument, None, 'd' as int),
      LongOption("suspend", NoArgument, None, 's' as int),
      LongOption("modengine-dll", RequiredArgument, None, 'd' as int)]), false)
  }

  /** A command line of its, `--config=x game --susp -sd m.dll`. */
  function CommandLine(): seq<Written> {
    [Long("config", false, Attached("x")), Written.Operand("game"), Long("susp", false, NoArg), Letters("s", 'd', Separate("m.dll"))]
  }

  lemma LauncherScans()
    ensures Rendered(CommandLine()) == ["--config=x", "game", "--susp", "-sd", "m.dll"]
    ensures var p := Split(Launcher(), Rendered(CommandLine()));
            && p.events == [Event(Value('c' as int), Some("x")), Event(Value('s' as int), None), Event(Letter('s'), None),
                            Event(Letter('d'), Some("m.dll"))]
            && p.operands == ["game"]
  {
    hide Split, AllAllowed, AllEvents, OptionsOf, OperandsOf, Rendered, Launcher, CommandLine;
    CommandLineWords();
    LauncherAllows();
    LauncherEvents();
    ScansAsWritten(Launcher(), CommandLine(), []);
    assert Rendered(CommandLine()) + [] == Rendered(CommandLine());
  }

  lemma CommandLineWords()
    ensures Rendered(CommandLine()) == ["--config=x", "game", "--susp", "-sd", "m.dll"]
    ensures OperandsOf(CommandLine()) == ["game"]
  {
    var ws := CommandLine();
    var w1, w2, w3 := ws[1..], ws[2..], ws[3..];
    assert w1[1..] == w2 && w2[1..] == w3 && w3[1..] == [];
    hide Render;
    RenderCommandLine();
    assert Rendered(w3) == ["-sd", "m.dll"] && Rendered(w1) == ["game", "--susp", "-sd", "m.dll"];
    assert OperandsOf(w3) == [] && OperandsOf(w2) == [];
  }

  lemma RenderCommandLine()
    ensures var ws := CommandLine();
            && Render(ws[0]) == ["--config=x"] && Render(ws[1]) == ["game"] && Render(ws[2]) == ["--susp"] && Render(ws[3]) == ["-sd", "m.dll"]
  {
    assert "--" + "config" + "=" + "x" == "--config=x" && "--" + "susp" == "--susp" && "-" + "s" + ['d'] == "-sd";
  }

  /** What the launcher's option string says of a letter. */
  lemma LauncherLetter(x: char, kind: HasArg, a: string, b: string)
    requires ListedBetween(Launcher().letters, x, kind, a, b)
    ensures !Unlisted(Launcher().letters, x) && forall k :: Lists(Launcher().letters, x, k) <==> k == kind
  {
    ListsIs(Launcher().letters, x);
    assert Lists(Launcher().letters, x, kind);
    hide ListedBetween, KindAt;
  }

  lemma LauncherLetters()
    ensures ListedBetween(Launcher().letters, 's', NoArgument, ":t:p:c:d:", "")
    ensures ListedBetween(Launcher().letters, 'd', RequiredArgument, ":t:p:c:", ":s")
  {
    var b := ":s";
    assert b[1] == 's' && b[..1] == ":";
  }

  /** What its long options mean. */
  lemma LauncherNames()
    ensures var longs := Launcher().longs.value; MatchOf(longs, "config", false) == Found(2) && MatchOf(longs, "susp", false) == Found(4)
  {
    var longs := Launcher().longs.value;
    LauncherMeans(longs);
    hide Means;
    MeansOnce(longs, "config", false, MatchOf(longs, "config", false), Found(2));
    MeansOnce(longs, "susp", false, MatchOf(longs, "susp", false), Found(4));
  }

  lemma LauncherMeans(longs: seq<LongOption>)
    requires longs == Launcher().longs.value
    ensures Means(longs, "config", false, Found(2)) && Means(longs, "susp", false, Found(4))
  {
    var name, target := "susp", longs[4].name;
    assert target[..4] == name;
    assert Partial(longs, name, false, 4);
    forall j: nat ensures !Exact(longs, name, j) && (Partial(longs, name, false, j) ==> j == 4) {
      if j < |longs| && name <= longs[j].name { assert longs[j].name[0] == 's'; }
    }
  }

  lemma LauncherLists()
    ensures var letters := Launcher().letters;
            && !Unlisted(letters, 's') && (forall k :: Lists(letters, 's', k) <==> k == NoArgument)
            && !Unlisted(letters, 'd') && (forall k :: Lists(letters, 'd', k) <==> k == RequiredArgument)
  {
    hide *;
    LauncherLetters();
    LauncherLetter('s', NoArgument, ":t:p:c:d:", "");
    LauncherLetter('d', RequiredArgument, ":t:p:c:", ":s");
  }

  lemma LauncherAllows()
    ensures AllAllowed(Launcher(), CommandLine(), true)
  {
    hide Lists, Unlisted, Allowed;
    LettersAllowed();
    NamesAllowed();
    WordAllowed();
  }

  lemma WordAllowed()
    ensures Allowed(Launcher(), Written.Operand("game"), false)
  {
  }

  lemma LettersAllowed()
    ensures Allowed(Launcher(), Letters("s", 'd', Separate("m.dll")), true)
  {
    LauncherLists();
    hide Lists, Unlisted;
    assert "s" + ['d'] + "" == "sd";
  }

  lemma NamesAllowed()
    ensures Allowed(Launcher(), Long("config", false, Attached("x")), false)
    ensures Allowed(Launcher(), Long("susp", false, NoArg), false)
  {
    LauncherNames();
    RenderCommandLine();
    hide Means, MatchOf, Render;
  }

  lemma LauncherEvents()
    ensures AllEvents(Launcher(), CommandLine())
      == [Event(Value('c' as int), Some("x")), Event(Value('s' as int), None), Event(Letter('s'), None), Event(Letter('d'), Some("m.dll"))]
  {
    hide EventsOf;
    EachEvents();
    var c, ws := Launcher(), CommandLine();
    var w1, w2, w3 := ws[1..], ws[2..], ws[3..];
    assert w1[1..] == w2 && w2[1..] == w3 && w3[1..] == [];
    assert AllEvents(c, w3) == [Event(Letter('s'), None), Event(Letter('d'), Some("m.dll"))];
    assert AllEvents(c, w1) == AllEvents(c, w2);
  }

  lemma EachEvents()
    ensures var c, ws := Launcher(), CommandLine();
            && EventsOf(c, ws[0]) == [Event(Value('c' as int), Some("x"))] && EventsOf(c, ws[1]) == []
            && EventsOf(c, ws[2]) == [Event(Value('s' as int), None)]
            && EventsOf(c, ws[3]) == [Event(Letter('s'), None), Event(Letter('d'), Some("m.dll"))]
  {
    LauncherLists();
    LauncherNames();
    hide Lists, MatchOf, Unlisted;
    assert "s"[1..] == "";
  }
}
