/** The option scanner: long and short options, and the permutation of the argument vector that
    moves skipped operands behind the options. */
module Getopt {
  import opened Optional
  import opened PermuteArgs

  type Word = string

  datatype HasArg = NoArgument | RequiredArgument | OptionalArgument

  /** A long option; `flag` names the variable it sets, if it sets one. */
  datatype LongOption = LongOption(name: Word, hasArg: HasArg, flag: Option<nat>, val: int)

  /** The option string without a leading '+' or '-', the long options if there are any, and
      whether a single dash may introduce them. */
  datatype Config = Config(letters: string, longs: Option<seq<LongOption>>, longOnly: bool)

  datatype Code = Letter(letter: char) | Value(val: int) | FlagSet(index: nat) | Illegal | BadArgument

  /** `wcschr`: the first place of a character, or the length when it does not occur. */
  function Index(s: Word, c: char): (i: nat)
    ensures i <= |s| && (i < |s| ==> s[i] == c) && (forall j :: 0 <= j < i ==> s[j] != c)
  {
    if s == "" then 0 else if s[0] == c then 0 else 1 + Index(s[1..], c)
  }

  /** The character at a place, or the terminator. */
  function CharAt(s: Word, i: nat): char {
    if i < |s| then s[i] else '\0'
  }

  /** A word that is no option: it does not start with a dash, or it is a lone dash that is no
      option letter. */
  predicate IsOperand(c: Config, w: Word) {
    w == "" || w[0] != '-' || (|w| == 1 && Index(c.letters, '-') == |c.letters|)
  }

  datatype Match = Unknown | Ambiguous | Found(index: nat)

  predicate Exact(longs: seq<LongOption>, name: Word, i: nat) {
    i < |longs| && longs[i].name == name
  }

  /** An abbreviation; a single letter that is also a short option does not count as one. */
  predicate Partial(longs: seq<LongOption>, name: Word, shortToo: bool, i: nat) {
    i < |longs| && name < longs[i].name && !(shortToo && |name| == 1)
  }

  predicate Alike(longs: seq<LongOption>, i: nat, j: nat)
    requires i < |longs| && j < |longs|
  {
    longs[i].hasArg == longs[j].hasArg && longs[i].flag == longs[j].flag && longs[i].val == longs[j].val
  }

  /** What a long option name means: the first exact match; else the first abbreviation, unless
      some other abbreviation means something else. */
  ghost predicate Means(longs: seq<LongOption>, name: Word, shortToo: bool, m: Match) {
    match m
    case Found(i) =>
      || (Exact(longs, name, i) && forall j :: 0 <= j < i ==> !Exact(longs, name, j))
      || (Partial(longs, name, shortToo, i) && (forall j: nat :: !Exact(longs, name, j))
          && (forall j :: 0 <= j < i ==> !Partial(longs, name, shortToo, j))
          && (forall j: nat :: Partial(longs, name, shortToo, j) ==> Alike(longs, i, j)))
    case Unknown => forall j: nat :: !Exact(longs, name, j) && !Partial(longs, name, shortToo, j)
    case Ambiguous =>
      && (forall j: nat :: !Exact(longs, name, j))
      && exists i: nat, j: nat :: Partial(longs, name, shortToo, i) && Partial(longs, name, shortToo, j) && !Alike(longs, i, j)
  }

  /** A name has one meaning only. */
  lemma MeansOnce(longs: seq<LongOption>, name: Word, shortToo: bool, m: Match, n: Match)
    requires Means(longs, name, shortToo, m) && Means(longs, name, shortToo, n)
    ensures m == n
  {
    if m.Found? && n.Found? {
      assert m.index < n.index || n.index < m.index || m.index == n.index;
    }
  }

  ghost predicate ScanState(longs: seq<LongOption>, name: Word, shortToo: bool, i: nat, found: int, ambiguous: bool) {
    && (forall j :: 0 <= j < i ==> !Exact(longs, name, j))
    && -1 <= found < i <= |longs|
    && (found == -1 ==> !ambiguous && forall j :: 0 <= j < i ==> !Partial(longs, name, shortToo, j))
    && (found >= 0 ==> Partial(longs, name, shortToo, found) && forall j :: 0 <= j < found ==> !Partial(longs, name, shortToo, j))
    && (found >= 0 && !ambiguous ==> forall j :: 0 <= j < i && Partial(longs, name, shortToo, j) ==> Alike(longs, found, j))
    && (ambiguous ==> exists j :: 0 <= j < i && found >= 0 && Partial(longs, name, shortToo, j) && !Alike(longs, found, j))
  }

  /** The matching loop of `parse_long_options`. */
  method MatchLong(longs: seq<LongOption>, name: Word, shortToo: bool) returns (m: Match)
    ensures Means(longs, name, shortToo, m)
  {
    var found, ambiguous, i := -1, false, 0;
    while i < |longs|
      invariant ScanState(longs, name, shortToo, i, found, ambiguous)
    {
      if name <= longs[i].name {
        if |longs[i].name| == |name| {
          assert Exact(longs, name, i);
          return Found(i);
        }
        if !(shortToo && |name| == 1) {
          assert Partial(longs, name, shortToo, i);
          if found == -1 {
            found := i;
          } else if !Alike(longs, found, i) {
            ambiguous := true;
          }
        }
      }
      i := i + 1;
    }
    m := if ambiguous then Ambiguous else if found != -1 then Found(found) else Unknown;
  }

  function FirstExact(longs: seq<LongOption>, name: Word, i: nat): (e: nat)
    requires i <= |longs|
    ensures i <= e <= |longs| && (e < |longs| ==> Exact(longs, name, e))
    ensures forall j :: i <= j < e ==> !Exact(longs, name, j)
    decreases |longs| - i
  {
    if i == |longs| || longs[i].name == name then i else FirstExact(longs, name, i + 1)
  }

  function FirstPartial(longs: seq<LongOption>, name: Word, shortToo: bool, i: nat): (p: nat)
    requires i <= |longs|
    ensures i <= p <= |longs| && (p < |longs| ==> Partial(longs, name, shortToo, p))
    ensures forall j :: i <= j < p ==> !Partial(longs, name, shortToo, j)
    decreases |longs| - i
  {
    if i == |longs| || Partial(longs, name, shortToo, i) then i else FirstPartial(longs, name, shortToo, i + 1)
  }

  ghost function MatchOf(longs: seq<LongOption>, name: Word, shortToo: bool): (m: Match)
    ensures Means(longs, name, shortToo, m)
  {
    var e, p := FirstExact(longs, name, 0), FirstPartial(longs, name, shortToo, 0);
    if e < |longs| then Found(e)
    else if p == |longs| then Unknown
    else if forall j: nat :: Partial(longs, name, shortToo, j) ==> Alike(longs, p, j) then Found(p)
    else Ambiguous
  }

  /** What the scanner does with the rest of an option word: go on in the same word, take so many
      words as the option and its argument, or stop dead. */
  datatype Step = Stay(rest: Word, code: Code) | Take(n: nat, code: Code, arg: Option<Word>) | Quit

  /** The name before an equals sign, and the argument after it. */
  function NameOf(cur: Word): Word { cur[..Index(cur, '=')] }

  function ArgOf(cur: Word): Option<Word> {
    if Index(cur, '=') < |cur| then Some(cur[Index(cur, '=') + 1..]) else None
  }

  /** A long option that ends after `base` words, if it needs no further one as its argument. */
  ghost function LongStep(c: Config, longs: seq<LongOption>, cur: Word, shortToo: bool, words: seq<Word>, base: nat): Option<Step> {
    match MatchOf(longs, NameOf(cur), shortToo)
    case Ambiguous => Some(Take(base, Illegal, None))
    case Unknown => if shortToo then None else Some(Take(base, Illegal, None))
    case Found(i) =>
      if i >= |longs| then None
      else
        var l, arg, code := longs[i], ArgOf(cur), if longs[i].flag.Some? then FlagSet(i) else Value(longs[i].val);
        if l.hasArg == NoArgument then Some(if arg.Some? then Take(base, BadArgument, None) else Take(base, code, None))
        else if arg.Some? || l.hasArg == OptionalArgument then Some(Take(base, code, arg))
        else if base < |words| then Some(Take(base + 1, code, Some(words[base])))
        else Some(Take(base, BadArgument, None))
  }

  ghost function ShortStep(c: Config, place: Word, words: seq<Word>): Step
    requires place != "" && words != []
  {
    var letter, rest, i := place[0], place[1..], Index(c.letters, place[0]);
    if letter == ':' || (letter == '-' && rest != "") || i == |c.letters| then
      if letter == '-' && rest == "" then Quit
      else if rest == "" then Take(1, Illegal, None) else Stay(rest, Illegal)
    else if c.longs.Some? && letter == 'W' && CharAt(c.letters, i + 1) == ';' then
      if rest != "" then Forced(LongStep(c, c.longs.value, rest, false, words, 1))
      else if |words| < 2 then Take(1, BadArgument, None)
      else Forced(LongStep(c, c.longs.value, words[1], false, words, 2))
    else if CharAt(c.letters, i + 1) != ':' then
      if rest == "" then Take(1, Letter(letter), None) else Stay(rest, Letter(letter))
    else if rest != "" then Take(1, Letter(letter), Some(rest))
    else if CharAt(c.letters, i + 2) == ':' then Take(1, Letter(letter), None)
    else if |words| < 2 then Take(1, BadArgument, None)
    else Take(2, Letter(letter), Some(words[1]))
  }

  ghost function Forced(s: Option<Step>): Step {
    if s.Some? then s.value else Quit
  }

  /** One step in an option word; `whole` says that `place` is the word from its beginning. */
  ghost function StepOf(c: Config, place: Word, whole: bool, words: seq<Word>): Step
    requires place != "" && words != []
  {
    if c.longs.Some? && !whole && (place[0] == '-' || c.longOnly) then
      var shortToo := place[0] != '-' && place[0] != ':' && Index(c.letters, place[0]) < |c.letters|;
      var long := LongStep(c, c.longs.value, if place[0] == '-' then place[1..] else place, shortToo, words, 1);
      if long.Some? then long.value else ShortStep(c, place, words)
    else ShortStep(c, place, words)
  }

  /** A step takes at least one word and no more than there are, or leaves less of the word. */
  lemma StepBounds(c: Config, place: Word, whole: bool, words: seq<Word>)
    requires place != "" && words != []
    ensures StepOf(c, place, whole, words).Take? ==> 1 <= StepOf(c, place, whole, words).n <= |words|
    ensures StepOf(c, place, whole, words).Stay? ==> StepOf(c, place, whole, words).rest == place[1..] != ""
  {
    hide LongStep, ShortStep;
    ShortBounds(c, place, words);
    if c.longs.Some? {
      var shortToo := place[0] != '-' && place[0] != ':' && Index(c.letters, place[0]) < |c.letters|;
      LongBounds(c, c.longs.value, if place[0] == '-' then place[1..] else place, shortToo, words, 1);
    }
  }

  lemma LongBounds(c: Config, longs: seq<LongOption>, cur: Word, shortToo: bool, words: seq<Word>, base: nat)
    requires 1 <= base <= |words|
    ensures var s := LongStep(c, longs, cur, shortToo, words, base);
            s.Some? ==> s.value.Take? && 1 <= s.value.n <= |words|
  {
    hide MatchOf, NameOf, ArgOf;
  }

  lemma ShortBounds(c: Config, place: Word, words: seq<Word>)
    requires place != "" && words != []
    ensures ShortStep(c, place, words).Take? ==> 1 <= ShortStep(c, place, words).n <= |words|
    ensures ShortStep(c, place, words).Stay? ==> ShortStep(c, place, words).rest == place[1..] != ""
  {
    hide LongStep, Index, CharAt;
    if c.longs.Some? {
      LongBounds(c, c.longs.value, place[1..], false, words, 1);
      if |words| > 1 { LongBounds(c, c.longs.value, words[1], false, words, 2); }
    }
  }

  /** What one call of the scanner reports. */
  datatype Event = Event(code: Code, arg: Option<Word>)

  /** Options with their arguments, operands, and the words after a "--" or from a word on that stops
      the scan, in their own order; how many of the option words come before the last operand; and
      what is reported on the way. */
  datatype Parts = Parts(options: seq<Word>, operands: seq<Word>, rest: seq<Word>, quits: bool, lead: nat, events: seq<Event>)

  /** The words sorted out one after another, as if nothing were ever moved. */
  ghost function Split(c: Config, words: seq<Word>): (p: Parts)
    ensures p.lead <= |p.options|
    decreases |words|, 1, 0
  {
    if words == [] then Parts([], [], [], false, 0, [])
    else if IsOperand(c, words[0]) then
      var p := Split(c, words[1..]);
      p.(operands := [words[0]] + p.operands, lead := if p.operands == [] then 0 else p.lead)
    else if words[0] == "--" then Parts(words[..1], [], words[1..], false, 1, [])
    else if |words[0]| == 1 then SplitWord(c, words[0], true, words)
    else SplitWord(c, words[0][1..], false, words)
  }

  /** The same from within an option word. */
  ghost function SplitWord(c: Config, place: Word, whole: bool, words: seq<Word>): (p: Parts)
    requires place != "" && words != []
    ensures p.lead <= |p.options|
    decreases |words|, 0, |place|
  {
    StepBounds(c, place, whole, words);
    match StepOf(c, place, whole, words)
    case Stay(rest, code) =>
      var p := SplitWord(c, rest, false, words);
      p.(events := [Event(code, None)] + p.events)
    case Take(n, code, arg) =>
      var p := Split(c, words[n..]);
      p.(options := words[..n] + p.options, lead := n + p.lead, events := [Event(code, arg)] + p.events)
    case Quit => Parts([], [], words, true, 0, [])
  }

  datatype Outcome = End | Opt(code: Code)

  /** The state of a scan over an argument vector. */
  class Scanner {
    const config: Config
    const argv: array<Word>
    const first: nat
    var optind: nat
    var place: Word             // the rest of the option word being read; empty between words
    var whole: bool             // place is the word from its beginning
    var optarg: Option<Word>
    var nonoptStart: int        // -1: no operand skipped yet
    var nonoptEnd: int          // -1: the last word seen was an operand
    ghost var orig: seq<Word>
    ghost var before: seq<Word>    // options moved in front of the operands
    ghost var skipped: seq<Word>   // the operands skipped so far
    ghost var after: seq<Word>     // options seen since, still behind the operands
    ghost var events: seq<Event>   // what has been reported so far

    /** The vector so far: options, skipped operands, options since, and the untouched rest. */
    ghost predicate Laid()
      reads `optind, `orig, `before, `skipped, `after, argv
    {
      && first <= |orig| == argv.Length && optind <= |orig|
      && argv[..] == orig[..first] + before + skipped + after + orig[optind..]
      && optind == first + |before| + |skipped| + |after|
    }

    ghost predicate Marked()
      reads this
    {
      && (skipped == [] <==> nonoptStart == -1) && (skipped == [] ==> after == [])
      && (skipped != [] ==> nonoptStart == first + |before|)
      && (nonoptEnd == -1 ==> after == [])
      && (nonoptEnd != -1 ==> skipped != [] && nonoptEnd == first + |before| + |skipped|)
      && (nonoptEnd != -1 && place == "" ==> after != [])
      && (skipped != [] && place != "" ==> nonoptEnd != -1)
    }

    /** What is still to come. */
    ghost function Ahead(): Parts
      reads this
      requires optind <= |orig| && (place != "" ==> optind < |orig|)
    {
      if place == "" then Split(config, orig[optind..]) else SplitWord(config, place, whole, orig[optind..])
    }

    ghost predicate Valid()
      reads this, argv
    {
      && Laid() && Marked() && (place != "" ==> optind < |orig|)
      && Split(config, orig[first..]) == Added(before, after, skipped, events, Ahead())
    }

    constructor (config: Config, argv: array<Word>, first: nat)
      requires 1 <= first <= argv.Length
      ensures Valid() && orig == argv[..] && this.config == config && this.argv == argv && this.first == first && optind == first && events == []
    {
      this.config, this.argv, this.first := config, argv, first;
      optind, place, whole, optarg, nonoptStart, nonoptEnd := first, "", false, None, -1, -1;
      orig, before, skipped, after, events := argv[..], [], [], [], [];
      new;
      AddedNothing(Ahead());
    }

    /** Moves the options seen since the operands in front of them. */
    method Exchange()
      requires Laid() && skipped != [] && after != []
      requires nonoptStart == first + |before| && nonoptEnd == first + |before| + |skipped|
      modifies argv, `before, `after
      ensures Laid() && before == old(before) + old(after) && after == []
    {
      hide *;
      LaidParts();
      ghost var v, head, tail := argv[..], orig[..first], orig[optind..];
      var start, end := nonoptStart, nonoptEnd;
      PermuteArgs.PermuteArgs(start, end, optind, argv);
      Reassembled(v, argv[..], start, end, optind, head, before, skipped, after, tail);
      before, after := before + after, [];
      MakeLaid();
    }

    lemma LaidParts()
      requires Laid()
      ensures first <= |orig| == argv.Length && optind <= |orig|
      ensures argv[..] == orig[..first] + before + skipped + after + orig[optind..]
      ensures optind == first + |before| + |skipped| + |after|
    {
    }

    lemma MakeLaid()
      requires first <= |orig| == argv.Length && optind <= |orig|
      requires argv[..] == orig[..first] + before + skipped + after + orig[optind..]
      requires optind == first + |before| + |skipped| + |after|
      ensures Laid()
    {
    }

    /** Where the scan ends: what was reported and how the vector is arranged, in terms of the words
        as they were. */
    ghost predicate Over()
      reads this, argv
    {
      && first <= |orig| && events == Split(config, orig[first..]).events
      && Arranged(argv[..], orig, first, optind, Split(config, orig[first..]))
    }

    /** What is known between words. */
    lemma BetweenWords()
      requires Valid() && place == ""
      ensures Laid() && first <= |orig| == argv.Length && optind <= |orig|
      ensures Split(config, orig[first..]) == Added(before, after, skipped, events, Split(config, orig[optind..]))
      ensures (skipped == [] <==> nonoptStart == -1) && (skipped == [] ==> after == [])
      ensures skipped != [] ==> nonoptStart == first + |before|
      ensures nonoptEnd == -1 <==> after == []
      ensures nonoptEnd != -1 ==> skipped != [] && nonoptEnd == first + |before| + |skipped|
    {
    }

    lemma MakeOver(p: Parts)
      requires first <= |orig| && p == Split(config, orig[first..]) && events == p.events && Arranged(argv[..], orig, first, optind, p)
      ensures Over()
    {
    }

    /** The end of the vector. */
    method FinishVector()
      requires Valid() && place == "" && optind >= argv.Length
      modifies `optind, `nonoptStart, `nonoptEnd, `before, `after, argv
      ensures orig == old(orig) && Over() && nonoptStart == nonoptEnd == -1 && place == ""
    {
      hide *;
      BetweenWords();
      LaidParts();
      ghost var end, p := optind, Split(config, orig[first..]);
      VectorDone(config, orig, optind, before, skipped, after, events, p);
      if nonoptEnd != -1 {
        Exchange();
        LaidParts();
        optind := optind - (nonoptEnd - nonoptStart);
      } else if nonoptStart != -1 {
        optind := nonoptStart;
      }
      nonoptStart, nonoptEnd := -1, -1;
      Settled(argv[..], orig, first, before, skipped, after, end, optind, p);
      MakeOver(p);
    }

    /** The operands skipped so far are moved up to where the scan stands. */
    method MoveUp()
      requires Laid() && (skipped == [] <==> nonoptStart == -1) && (skipped == [] ==> after == [])
      requires skipped != [] ==> nonoptStart == first + |before|
      requires nonoptEnd == -1 <==> after == []
      requires nonoptEnd != -1 ==> nonoptEnd == first + |before| + |skipped|
      modifies `nonoptStart, `nonoptEnd, `before, `after, argv
      ensures Laid() && after == [] && before == old(before) + old(after) && nonoptStart == first + |before| && nonoptEnd == -1
    {
      hide *;
      LaidParts();
      if nonoptStart == -1 {
        nonoptStart := optind;
      } else if nonoptEnd != -1 {
        Exchange();
        LaidParts();
        nonoptStart := optind - (nonoptEnd - nonoptStart);
        nonoptEnd := -1;
      }
    }

    /** An operand is skipped; operands skipped earlier are first moved up to it. */
    method SkipOperand()
      requires Valid() && place == "" && optind < argv.Length && IsOperand(config, argv[optind])
      modifies `optind, `nonoptStart, `nonoptEnd, `before, `skipped, `after, argv
      ensures Valid() && place == "" && optind == old(optind) + 1
    {
      hide *;
      BetweenWords();
      NextIs();
      ghost var w, b0, a0 := orig[optind], before, after;
      MoveUp();
      LaidParts();
      OperandSkipped(config, argv[..], orig, first, b0, a0, before, skipped, events, optind);
      optind := optind + 1;
      skipped := skipped + [w];
      Resume();
    }

    /** The pieces make a scan between words or within one. */
    lemma Resume()
      requires first <= |orig| == argv.Length && optind <= |orig| && optind == first + |before| + |skipped| + |after|
      requires argv[..] == orig[..first] + before + skipped + after + orig[optind..]
      requires (skipped == [] <==> nonoptStart == -1) && (skipped == [] ==> after == [])
      requires skipped != [] ==> nonoptStart == first + |before|
      requires nonoptEnd == -1 ==> after == []
      requires nonoptEnd != -1 ==> skipped != [] && nonoptEnd == first + |before| + |skipped| && (place == "" ==> after != [])
      requires place != "" ==> optind < |orig| && (skipped != [] ==> nonoptEnd != -1)
      requires Split(config, orig[first..])
            == Added(before, after, skipped, events, if place == "" then Split(config, orig[optind..]) else SplitWord(config, place, whole, orig[optind..]))
      ensures Valid()
    {
    }

    /** A "--" ends the scan; it counts among the options. */
    method FinishDashes()
      requires Valid() && place == "" && optind < argv.Length && argv[optind] == "--"
      modifies `optind, `nonoptStart, `nonoptEnd, `before, `after, argv
      ensures orig == old(orig) && Over() && nonoptStart == nonoptEnd == -1 && place == ""
    {
      hide *;
      BetweenWords();
      LaidParts();
      NextIs();
      SplitDashes(config, orig[optind..]);
      if nonoptStart != -1 && nonoptEnd == -1 { nonoptEnd := optind; }
      TakeWord();
      LaidParts();
      ghost var end, p := optind, Split(config, orig[first..]);
      DashesTaken(p, before, old(after), after, skipped, events, orig, old(optind));
      if nonoptEnd != -1 {
        Exchange();
        LaidParts();
        optind := optind - (nonoptEnd - nonoptStart);
      }
      Settled(argv[..], orig, first, before, skipped, after, end, optind, p);
      nonoptStart, nonoptEnd := -1, -1;
      MakeOver(p);
    }

    /** One more word among the options since the operands. */
    method TakeWord()
      requires Laid() && optind < argv.Length
      modifies `optind, `after
      ensures Laid() && optind == old(optind) + 1 && old(optind) < |orig| && after == old(after) + [orig[old(optind)]]
    {
      TakeWords(argv[..], orig, first, before, skipped, after, optind, 1);
      after := after + orig[optind..optind + 1];
      optind := optind + 1;
    }

    /** An option word is entered: its dash is passed over. */
    method EnterWord()
      requires Valid() && place == "" && optind < argv.Length && !IsOperand(config, argv[optind]) && argv[optind] != "--"
      modifies `place, `whole, `nonoptEnd
      ensures Valid() && place != "" && |place| <= |argv[optind]|
    {
      hide *;
      BetweenWords();
      LaidParts();
      NextIs();
      EnterSplit(config, orig[optind..]);
      if nonoptStart != -1 && nonoptEnd == -1 { nonoptEnd := optind; }
      place, whole := argv[optind], true;
      EnteredIs(place);
      if |place| > 1 { place, whole := place[1..], false; }
      Resume();
    }

    /** `parse_long_options` on a name whose word is the `base`-th from `start`; -1 when a short
        option may be meant. */
    method ParseLong(cur: Word, shortToo: bool, ghost start: nat, ghost base: nat) returns (code: Option<Code>)
      requires config.longs.Some? && optarg == None && base >= 1 && optind + 1 == start + base <= argv.Length
      modifies `optind, `optarg
      ensures var step := LongStep(config, config.longs.value, cur, shortToo, argv[start..], base);
              if step.None? then code == None && optind == old(optind) && optarg == None
              else step.value.Take? && code == Some(step.value.code) && optind == start + step.value.n && optarg == step.value.arg
    {
      hide Index, MatchOf, Means;
      ghost var words := argv[start..];
      optind := optind + 1;
      assert optind - start == base && |words| == argv.Length - start;
      assert base < |words| ==> words[base] == argv[optind];
      var longs := config.longs.value;
      var hasEqual := Index(cur, '=') < |cur|;
      var m := MatchLong(longs, NameOf(cur), shortToo);
      MeansOnce(longs, NameOf(cur), shortToo, m, MatchOf(longs, NameOf(cur), shortToo));
      match m {
        case Ambiguous => return Some(Illegal);
        case Unknown =>
          if shortToo {
            optind := optind - 1;
            return None;
          }
          return Some(Illegal);
        case Found(i) =>
          MeansInside(longs, NameOf(cur), shortToo, i);
          var l := longs[i];
          if l.hasArg == NoArgument && hasEqual { return Some(BadArgument); }
          if l.hasArg == RequiredArgument || l.hasArg == OptionalArgument {
            if hasEqual {
              optarg := Some(cur[Index(cur, '=') + 1..]);
            } else if l.hasArg == RequiredArgument {
              optarg := if optind < argv.Length then Some(argv[optind]) else None;
              optind := optind + 1;
            }
          }
          if l.hasArg == RequiredArgument && optarg == None {
            optind := optind - 1;
            return Some(BadArgument);
          }
          code := Some(if l.flag.Some? then FlagSet(i) else Value(l.val));
      }
    }

    /** What a step has done to the scanner. */
    ghost predicate Did(step: Step, start: nat, out: Outcome)
      reads `optind, `place, `whole, `optarg
    {
      match step
      case Stay(rest, code) => out == Opt(code) && optind == start && place == rest && !whole && optarg == None
      case Take(n, code, arg) => out == Opt(code) && optind == start + n && place == "" && optarg == arg
      case Quit => out == End && optind == start && place == ""
    }

    /** The short-option half of `getopt_internal`. */
    method ShortOption() returns (out: Outcome)
      requires place != "" && optind < argv.Length && optarg == None
      modifies `optind, `place, `whole, `optarg
      ensures Did(ShortStep(config, old(place), argv[old(optind)..]), old(optind), out)
    {
      hide Index, LongStep;
      ghost var start, words := optind, argv[optind..];
      var letter := place[0];
      var oli := Index(config.letters, letter);
      place, whole := place[1..], false;
      if letter == ':' || (letter == '-' && place != "") || oli == |config.letters| {
        if letter == '-' && place == "" { return End; }
        if place == "" { optind := optind + 1; }
        return Opt(Illegal);
      }
      if config.longs.Some? && letter == 'W' && CharAt(config.letters, oli + 1) == ';' {
        ghost var base := 1;
        if place == "" {
          optind, base := optind + 1, 2;
          if optind >= argv.Length { return Opt(BadArgument); }
          place := argv[optind];
        }
        LongAlways(config, config.longs.value, place, words, base);
        var code := ParseLong(place, false, start, base);
        place := "";
        return Opt(code.value);
      }
      if CharAt(config.letters, oli + 1) != ':' {
        if place == "" { optind := optind + 1; }
      } else {
        if place != "" {
          optarg := Some(place);
        } else if CharAt(config.letters, oli + 2) != ':' {
          optind := optind + 1;
          if optind >= argv.Length { return Opt(BadArgument); }
          optarg := Some(argv[optind]);
        }
        place := "";
        optind := optind + 1;
      }
      out := Opt(Letter(letter));
    }

    /** One step in an option word: a long option where one may stand, else a short one. */
    method OptionStep() returns (out: Outcome)
      requires place != "" && optind < argv.Length && optarg == None
      modifies `optind, `place, `whole, `optarg
      ensures Did(StepOf(config, old(place), old(whole), argv[old(optind)..]), old(optind), out)
    {
      hide Index, LongStep, ShortStep;
      if config.longs.Some? && !whole && (place[0] == '-' || config.longOnly) {
        var shortToo := false;
        var cur := place;
        if place[0] == '-' {
          cur := place[1..];
        } else if place[0] != ':' && Index(config.letters, place[0]) < |config.letters| {
          shortToo := true;
        }
        var code := ParseLong(cur, shortToo, optind, 1);
        if code.Some? {
          place := "";
          return Opt(code.value);
        }
        LongOrShort(config, config.longs.value, cur, shortToo, argv[optind..]);
      }
      out := ShortOption();
    }

    /** What an option step leaves, in terms of the whole vector. */
    ghost method Settle(step: Step, out: Outcome, start: nat, place0: Word, whole0: bool)
      requires start < |orig| && place0 != "" && step == StepOf(config, place0, whole0, orig[start..]) && Did(step, start, out)
      requires first <= |orig| == argv.Length && start == first + |before| + |skipped| + |after|
      requires argv[..] == orig[..first] + before + skipped + after + orig[start..]
      requires (skipped == [] <==> nonoptStart == -1) && (skipped == [] ==> after == [] && nonoptEnd == -1)
      requires skipped != [] ==> nonoptStart == first + |before| && nonoptEnd == first + |before| + |skipped|
      requires Split(config, orig[first..]) == Added(before, after, skipped, events, SplitWord(config, place0, whole0, orig[start..]))
      modifies `before, `after, `events
      ensures out.Opt? ==> Valid() && events == old(events) + [Event(out.code, optarg)]
      ensures out.End? ==> Over() && events == old(events)
    {
      hide *;
      var words := orig[start..];
      DidWhat(step, start, out);
      SplitStep(config, place0, whole0, words);
      match step {
        case Stay(rest, code) =>
          StayedOn(before, after, skipped, events, Event(code, None), SplitWord(config, rest, false, words));
          events := events + [Event(code, None)];
          Resume();
        case Take(n, code, arg) =>
          StepTakes(config, place0, whole0, words);
          assert words[..n] == orig[start..start + n] && words[n..] == orig[start + n..];
          TakeWords(argv[..], orig, first, before, skipped, after, start, n);
          Regrouped(before, after, skipped, events, words[..n], Event(code, arg), Split(config, words[n..]));
          TakeFirst(orig[..first], before, words[..n], orig[start + n..]);
          if skipped == [] { before := before + words[..n]; } else { after := after + words[..n]; }
          events := events + [Event(code, arg)];
          Resume();
        case Quit =>
          QuitParts(argv[..], orig, first, before, skipped, after, start, events, Split(config, orig[first..]));
          MakeOver(Split(config, orig[first..]));
      }
    }

    lemma DidWhat(step: Step, start: nat, out: Outcome)
      requires Did(step, start, out)
      ensures match step
              case Stay(rest, code) => out == Opt(code) && optind == start && place == rest && !whole && optarg == None
              case Take(n, code, arg) => out == Opt(code) && optind == start + n && place == "" && optarg == arg
              case Quit => out == End && optind == start && place == ""
    {
    }

    lemma OverParts()
      requires Over()
      ensures first <= |orig| && events == Split(config, orig[first..]).events
      ensures Arranged(argv[..], orig, first, optind, Split(config, orig[first..]))
    {
    }

    lemma ValidParts()
      requires Valid()
      ensures Laid() && first <= |orig| == argv.Length && optind <= |orig| && optind == first + |before| + |skipped| + |after|
      ensures argv[..] == orig[..first] + before + skipped + after + orig[optind..]
      ensures argv[optind..] == orig[optind..]
      ensures (skipped == [] <==> nonoptStart == -1) && (skipped == [] ==> after == [] && nonoptEnd == -1)
      ensures place != "" ==> optind < |orig|
      ensures place != "" && skipped != [] ==> nonoptStart == first + |before| && nonoptEnd == first + |before| + |skipped|
      ensures place != "" ==> Split(config, orig[first..]) == Added(before, after, skipped, events, SplitWord(config, place, whole, orig[optind..]))
    {
      assert argv[..][optind..] == orig[optind..];
    }

    method Clear()
      requires Valid()
      modifies `optarg
      ensures Valid() && optarg == None
    {
      optarg := None;
    }

    /** `getopt_internal` for `getopt_long` and `getopt_long_only`: the next option, or the end. */
    method Getopt() returns (out: Outcome)
      requires Valid()
      modifies this, argv
      ensures orig == old(orig)
      ensures out.Opt? ==> Valid() && events == old(events) + [Event(out.code, optarg)]
      ensures out.Opt? ==> optind > old(optind) || (optind == old(optind) && (old(place) == "" ==> place != "") && (old(place) != "" ==> 0 < |place| < |old(place)|))
      ensures out.End? ==> Over() && events == old(events)
    {
      hide *;
      Clear();
      if place == "" {
        var found := FindOption();
        if !found { return End; }
      }
      ValidParts();
      ghost var start, place0, whole0 := optind, place, whole;
      ghost var words := argv[optind..];
      out := OptionStep();
      Progress(StepOf(config, place0, whole0, words), start, out, place0, whole0, words);
      Settle(StepOf(config, place0, whole0, words), out, start, place0, whole0);
    }

    /** Skips operands until an option word is entered; false at the end of the scan. */
    method FindOption() returns (found: bool)
      requires Valid() && place == "" && optarg == None
      modifies this, argv
      ensures orig == old(orig) && events == old(events)
      ensures found ==> Valid() && place != "" && optarg == None && optind >= old(optind)
      ensures !found ==> Over()
    {
      hide Over, IsOperand, Split, SplitWord;
      while true
        invariant Valid() && orig == old(orig) && events == old(events) && optarg == None && place == "" && optind >= old(optind)
        decreases |orig| - optind
      {
        if optind >= argv.Length {
          FinishVector();
          return false;
        }
        var w := argv[optind];
        if IsOperand(config, w) {
          SkipOperand();
        } else if w == "--" {
          FinishDashes();
          return false;
        } else {
          EnterWord();
          return true;
        }
      }
    }

    lemma Progress(step: Step, start: nat, out: Outcome, place0: Word, whole0: bool, words: seq<Word>)
      requires place0 != "" && words != [] && step == StepOf(config, place0, whole0, words) && Did(step, start, out)
      ensures out.Opt? ==> optind > start || (optind == start && 0 < |place| < |place0|)
    {
      hide StepOf;
      StepBounds(config, place0, whole0, words);
    }

    lemma NextIs()
      requires Laid() && optind < argv.Length
      ensures optind < |orig| && argv[optind] == orig[optind]
    {
      assert argv[..][optind] == (orig[..first] + before + skipped + after + orig[optind..])[optind];
    }
  }

  /** What has been seen in front of what is still to come: options before and after the operands
      skipped so far, those operands, and what has been reported. */
  ghost function Added(before: seq<Word>, after: seq<Word>, skipped: seq<Word>, events: seq<Event>, p: Parts): (q: Parts)
    requires p.lead <= |p.options|
    ensures q.lead <= |q.options|
  {
    Parts(before + after + p.options, skipped + p.operands, p.rest, p.quits,
          if p.operands == [] && skipped != [] then |before| else |before| + |after| + p.lead, events + p.events)
  }

  /** Where the scan ends.  In order: options first, then the operands, then what follows a "--", and
      `optind` at the first operand.  A scan that was stopped has moved the options only up to
      the last operand, and leaves `optind` at the word that stopped it. */
  ghost predicate Arranged(v: seq<Word>, orig: seq<Word>, first: nat, optind: nat, p: Parts)
    requires first <= |orig| && p.lead <= |p.options|
  {
    if p.quits then
      v == orig[..first] + p.options[..p.lead] + p.operands + p.options[p.lead..] + p.rest
      && optind == first + |p.options| + |p.operands|
    else
      v == orig[..first] + p.options + p.operands + p.rest && optind == first + |p.options|
  }

  /** The scan ends in order unless it was stopped after it had skipped an operand. */
  lemma InOrder(v: seq<Word>, orig: seq<Word>, first: nat, optind: nat, p: Parts)
    requires first <= |orig| && p.lead <= |p.options| && Arranged(v, orig, first, optind, p)
    ensures (v == orig[..first] + p.options + p.operands + p.rest && optind == first + |p.options|)
      <==> !(p.quits && p.operands != [])
  {
  }

  lemma AddedNothing(p: Parts)
    requires p.lead <= |p.options|
    ensures Added([], [], [], [], p) == p
  {
  }

  lemma Blocks(v: seq<Word>, head: seq<Word>, x: seq<Word>, y: seq<Word>, tail: seq<Word>)
    requires v == head + x + y + tail
    ensures v[..|head|] == head && v[|head|..|head| + |x|] == x && v[|head| + |x|..|head| + |x| + |y|] == y
    ensures v[|head| + |x| + |y|..] == tail
  {
  }

  lemma Reassembled(v: seq<Word>, u: seq<Word>, start: nat, end: nat, optEnd: nat, head: seq<Word>, b: seq<Word>, x: seq<Word>,
    y: seq<Word>, tail: seq<Word>)
    requires start <= end <= optEnd <= |v| == |u| && v == head + b + x + y + tail
    requires start == |head| + |b| && end == start + |x| && optEnd == end + |y|
    requires u[..start] == v[..start] && u[optEnd..] == v[optEnd..]
    requires u[start..optEnd] == v[end..optEnd] + v[start..end]
    ensures u == head + (b + y) + x + [] + tail
  {
    Blocks(v, head + b, x, y, tail);
    assert u == u[..start] + u[start..optEnd] + u[optEnd..];
    Joined(head, b, y, x, tail);
  }

  lemma Joined(head: seq<Word>, b: seq<Word>, y: seq<Word>, x: seq<Word>, tail: seq<Word>)
    ensures (head + b) + (y + x) + tail == head + (b + y) + x + [] + tail
  {
  }

  lemma StepOver(v: seq<Word>, orig: seq<Word>, first: nat, before: seq<Word>, skipped: seq<Word>, optind: nat)
    requires first <= |orig| && optind < |orig| && v == orig[..first] + before + skipped + [] + orig[optind..]
    ensures v == orig[..first] + before + (skipped + [orig[optind]]) + [] + orig[optind + 1..]
  {
    assert orig[optind..] == [orig[optind]] + orig[optind + 1..];
  }

  lemma SplitOperand(c: Config, words: seq<Word>, before: seq<Word>, after: seq<Word>, skipped: seq<Word>, events: seq<Event>)
    requires words != [] && IsOperand(c, words[0])
    ensures Added(before, after, skipped, events, Split(c, words))
         == Added(before + after, [], skipped + [words[0]], events, Split(c, words[1..]))
  {
    var p := Split(c, words[1..]);
    assert skipped + ([words[0]] + p.operands) == (skipped + [words[0]]) + p.operands;
    assert before + after + p.options == before + after + [] + p.options;
  }

  lemma OperandSkipped(c: Config, v: seq<Word>, orig: seq<Word>, first: nat, b: seq<Word>, a: seq<Word>, before: seq<Word>,
    skipped: seq<Word>, events: seq<Event>, optind: nat)
    requires first <= |orig| && optind < |orig| && IsOperand(c, orig[optind]) && before == b + a
    requires v == orig[..first] + before + skipped + [] + orig[optind..]
    ensures v == orig[..first] + before + (skipped + [orig[optind]]) + [] + orig[optind + 1..]
    ensures Added(b, a, skipped, events, Split(c, orig[optind..]))
         == Added(before, [], skipped + [orig[optind]], events, Split(c, orig[optind + 1..]))
  {
    hide *;
    StepOver(v, orig, first, before, skipped, optind);
    SplitOperand(c, orig[optind..], b, a, skipped, events);
    assert orig[optind..][1..] == orig[optind + 1..] && orig[optind..][0] == orig[optind];
  }

  lemma TakeWords(v: seq<Word>, orig: seq<Word>, first: nat, before: seq<Word>, skipped: seq<Word>, after: seq<Word>, optind: nat, n: nat)
    requires first <= |orig| && optind + n <= |orig| && v == orig[..first] + before + skipped + after + orig[optind..]
    ensures v == orig[..first] + before + skipped + (after + orig[optind..optind + n]) + orig[optind + n..]
  {
    assert orig[optind..] == orig[optind..optind + n] + orig[optind + n..];
  }

  lemma SplitDashes(c: Config, words: seq<Word>)
    requires words != [] && words[0] == "--"
    ensures Split(c, words) == Parts(words[..1], [], words[1..], false, 1, [])
  {
  }

  lemma EnterSplit(c: Config, words: seq<Word>)
    requires words != [] && !IsOperand(c, words[0]) && words[0] != "--"
    ensures words[0] != "" && Split(c, words) == SplitWord(c, Entered(words[0]), |words[0]| == 1, words)
  {
  }

  lemma DashesTaken(p: Parts, before: seq<Word>, after: seq<Word>, after': seq<Word>, skipped: seq<Word>, events: seq<Event>, orig: seq<Word>, at: nat)
    requires at < |orig| && after' == after + [orig[at]]
    requires p == Added(before, after, skipped, events, Parts(orig[at..][..1], [], orig[at..][1..], false, 1, []))
    ensures p.options == before + after' && p.operands == skipped && p.rest == orig[at + 1..] && !p.quits && p.events == events
  {
    assert orig[at..][..1] == [orig[at]] && orig[at..][1..] == orig[at + 1..];
    assert before + after + [orig[at]] == before + (after + [orig[at]]);
    assert skipped + [] == skipped;
  }

  lemma VectorDone(c: Config, orig: seq<Word>, at: nat, before: seq<Word>, skipped: seq<Word>, after: seq<Word>, events: seq<Event>, p: Parts)
    requires at == |orig| && p == Added(before, after, skipped, events, Split(c, orig[at..]))
    ensures p.options == before + after && p.operands == skipped && p.rest == orig[at..] && !p.quits && p.events == events
  {
    assert orig[at..] == [];
  }

  /** With nothing behind the operands, the vector is in order. */
  lemma Settled(v: seq<Word>, orig: seq<Word>, first: nat, before: seq<Word>, skipped: seq<Word>, after: seq<Word>, end: nat, optind: nat, p: Parts)
    requires first <= |orig| && end <= |orig| && v == orig[..first] + before + skipped + after + orig[end..]
    requires p.options == before + after && p.operands == skipped && p.rest == orig[end..] && !p.quits && p.lead <= |p.options|
    requires after == [] || skipped == []
    requires optind == first + |before| + |after|
    ensures Arranged(v, orig, first, optind, p)
  {
  }

  lemma MeansInside(longs: seq<LongOption>, name: Word, shortToo: bool, i: nat)
    requires MatchOf(longs, name, shortToo) == Found(i)
    ensures i < |longs|
  {
  }

  /** Without a short reading, a long option is always something, if only an error. */
  lemma LongAlways(c: Config, longs: seq<LongOption>, cur: Word, words: seq<Word>, base: nat)
    ensures LongStep(c, longs, cur, false, words, base).Some?
  {
    hide MatchOf;
    if MatchOf(longs, NameOf(cur), false).Found? { MeansInside(longs, NameOf(cur), false, MatchOf(longs, NameOf(cur), false).index); }
  }

  lemma LongOrShort(c: Config, longs: seq<LongOption>, cur: Word, shortToo: bool, words: seq<Word>)
    ensures LongStep(c, longs, cur, shortToo, words, 1) == None ==> shortToo
  {
    if !shortToo { LongAlways(c, longs, cur, words, 1); }
  }

  lemma SplitStep(c: Config, place: Word, whole: bool, words: seq<Word>)
    requires place != "" && words != []
    ensures var step := StepOf(c, place, whole, words);
            match step
            case Stay(rest, code) => rest != "" && SplitWord(c, place, whole, words) == Added([], [], [], [Event(code, None)], SplitWord(c, rest, false, words))
            case Take(n, code, arg) =>
              n <= |words| && SplitWord(c, place, whole, words) == Added(words[..n], [], [], [Event(code, arg)], Split(c, words[n..]))
            case Quit => SplitWord(c, place, whole, words) == Parts([], [], words, true, 0, [])
  {
    hide *;
    StepBounds(c, place, whole, words);
    WordIs(c, place, whole, words);
    match StepOf(c, place, whole, words) {
      case Stay(rest, code) =>
        var p := SplitWord(c, rest, false, words);
        AddedIs([], [Event(code, None)], p);
      case Take(n, code, arg) =>
        AddedIs(words[..n], [Event(code, arg)], Split(c, words[n..]));
      case Quit =>
    }
  }

  lemma WordIs(c: Config, place: Word, whole: bool, words: seq<Word>)
    requires place != "" && words != []
    ensures var step := StepOf(c, place, whole, words);
            match step
            case Stay(rest, code) =>
              rest != "" && SplitWord(c, place, whole, words) == SplitWord(c, rest, false, words).(events := [Event(code, None)] + SplitWord(c, rest, false, words).events)
            case Take(n, code, arg) =>
              1 <= n <= |words| &&
              SplitWord(c, place, whole, words)
              == Split(c, words[n..]).(options := words[..n] + Split(c, words[n..]).options, lead := n + Split(c, words[n..]).lead,
                                       events := [Event(code, arg)] + Split(c, words[n..]).events)
            case Quit => SplitWord(c, place, whole, words) == Parts([], [], words, true, 0, [])
  {
    hide StepOf, Split;
    StepBounds(c, place, whole, words);
  }

  lemma AddedIs(words: seq<Word>, events: seq<Event>, p: Parts)
    requires p.lead <= |p.options|
    ensures Added(words, [], [], events, p) == p.(options := words + p.options, lead := |words| + p.lead, events := events + p.events)
    ensures [] + p.options == p.options
  {
    assert words + [] + p.options == words + p.options && [] + p.operands == p.operands;
  }

  lemma StepTakes(c: Config, place: Word, whole: bool, words: seq<Word>)
    requires place != "" && words != []
    ensures StepOf(c, place, whole, words).Take? ==> StepOf(c, place, whole, words).n >= 1
  {
    hide *;
    StepBounds(c, place, whole, words);
  }

  lemma TakeFirst(head: seq<Word>, before: seq<Word>, words: seq<Word>, tail: seq<Word>)
    ensures head + before + [] + ([] + words) + tail == head + (before + words) + [] + [] + tail
  {
  }

  lemma StayedOn(before: seq<Word>, after: seq<Word>, skipped: seq<Word>, events: seq<Event>, e: Event, p: Parts)
    requires p.lead <= |p.options|
    ensures Added(before, after, skipped, events, Added([], [], [], [e], p)) == Added(before, after, skipped, events + [e], p)
  {
    assert [] + [] + p.options == p.options && [] + p.operands == p.operands;
    assert events + ([e] + p.events) == events + [e] + p.events;
  }

  lemma Regrouped(before: seq<Word>, after: seq<Word>, skipped: seq<Word>, events: seq<Event>, words: seq<Word>, e: Event, p: Parts)
    requires p.lead <= |p.options|
    ensures var q := Added(before, after, skipped, events, Added(words, [], [], [e], p));
            && (skipped != [] ==> q == Added(before, after + words, skipped, events + [e], p))
            && (skipped == [] && after == [] ==> q == Added(before + words, after, skipped, events + [e], p))
  {
    assert before + after + (words + [] + p.options) == before + (after + words) + p.options;
    assert skipped + ([] + p.operands) == skipped + p.operands;
    assert events + ([e] + p.events) == events + [e] + p.events;
    if after == [] { assert before + after + (words + [] + p.options) == before + words + after + p.options; }
  }

  lemma QuitParts(v: seq<Word>, orig: seq<Word>, first: nat, before: seq<Word>, skipped: seq<Word>, after: seq<Word>, start: nat, events: seq<Event>, p: Parts)
    requires first <= |orig| && start <= |orig| && v == orig[..first] + before + skipped + after + orig[start..]
    requires p == Added(before, after, skipped, events, Parts([], [], orig[start..], true, 0, [])) && start == first + |before| + |skipped| + |after|
    requires skipped == [] ==> after == []
    ensures Arranged(v, orig, first, start, p) && p.events == events
  {
    assert p.options == before + after && p.operands == skipped && p.rest == orig[start..];
    assert p.options[..p.lead] == before && p.options[p.lead..] == after;
  }

  /** How many words the option word takes that is being read: itself and its arguments; none when it
      stops the scan. */
  ghost function Arity(c: Config, place: Word, whole: bool, words: seq<Word>): (n: nat)
    requires place != "" && words != []
    ensures n <= |words|
    decreases |place|
  {
    StepBounds(c, place, whole, words);
    match StepOf(c, place, whole, words)
    case Stay(rest, _) => Arity(c, rest, false, words)
    case Take(n, _, _) => n
    case Quit => 0
  }

  /** Where the reading of an option word begins: past the dash, but for a lone dash. */
  function Entered(w: Word): (place: Word)
    requires w != ""
    ensures place != ""
  {
    if |w| == 1 then w else w[1..]
  }

  lemma EnteredIs(w: Word)
    requires w != ""
    ensures Entered(w) == if |w| == 1 then w else w[1..]
  {
  }

  ghost function WordArity(c: Config, words: seq<Word>): nat
    requires words != [] && words[0] != ""
  {
    Arity(c, Entered(words[0]), |words[0]| == 1, words)
  }

  datatype Role = OptionWord | Argument | Operand

  /** Word `i` is taken by an option before it. */
  ghost predicate Taken(c: Config, words: seq<Word>, roles: seq<Role>, i: nat)
    requires i < |roles| <= |words|
  {
    exists j :: 0 <= j < i && Takes(c, words, roles, j, i)
  }

  ghost predicate Takes(c: Config, words: seq<Word>, roles: seq<Role>, j: nat, i: nat)
    requires j < i < |roles| <= |words|
  {
    roles[j] == OptionWord && words[j] != "" && words[j] != "--" && WordArity(c, words[j..]) > i - j
  }

  ghost predicate RoleFits(c: Config, words: seq<Word>, roles: seq<Role>, i: nat)
    requires i < |roles| <= |words|
  {
    && (roles[i] == Argument <==> Taken(c, words, roles, i))
    && (roles[i] == Operand <==> IsOperand(c, words[i]) && !Taken(c, words, roles, i))
  }

  /** The words of one kind, in order: operands, or options and their arguments. */
  ghost function Kept(words: seq<Word>, roles: seq<Role>, operands: bool): seq<Word>
    requires |words| == |roles|
  {
    if words == [] then [] else
      (if (roles[0] == Operand) == operands then [words[0]] else []) + Kept(words[1..], roles[1..], operands)
  }

  /** The roles of the words before the rest make up the parts. */
  ghost predicate Assigned(c: Config, words: seq<Word>, roles: seq<Role>, p: Parts) {
    && |roles| <= |words| && p.rest == words[|roles|..]
    && p.options == Kept(words[..|roles|], roles, false) && p.operands == Kept(words[..|roles|], roles, true)
    && forall i :: 0 <= i < |roles| ==> RoleFits(c, words, roles, i)
  }

  /** Sorting out the words is a stable partition of those before the rest: the operands are, in their
      order, exactly the operand words that no option takes as its argument, and the options, in
      theirs, are all others. */
  lemma {:induction false} SplitIsStable(c: Config, words: seq<Word>) returns (roles: seq<Role>)
    ensures Assigned(c, words, roles, Split(c, words))
    decreases |words|, 1, 0
  {
    hide StepOf, IsOperand, Split, SplitWord, Assigned;
    SplitCases(c, words);
    if words == [] {
      roles := [];
      NothingAssigned(c, words, Split(c, words));
    } else if IsOperand(c, words[0]) {
      roles := SplitIsStable(c, words[1..]);
      AssignOperand(c, words, roles, Split(c, words[1..]), Split(c, words));
      roles := [Operand] + roles;
    } else if words[0] == "--" {
      SplitDashes(c, words);
      roles := [OptionWord];
      AssignDashes(c, words, Split(c, words));
    } else {
      EnterSplit(c, words);
      roles := WordIsStable(c, Entered(words[0]), |words[0]| == 1, words);
    }
  }

  lemma {:induction false} WordIsStable(c: Config, place: Word, whole: bool, words: seq<Word>) returns (roles: seq<Role>)
    requires place != "" && words != [] && !IsOperand(c, words[0]) && words[0] != "" && words[0] != "--"
    requires Arity(c, place, whole, words) == WordArity(c, words)
    ensures Assigned(c, words, roles, SplitWord(c, place, whole, words))
    decreases |words|, 0, |place|
  {
    hide StepOf, IsOperand, Split, SplitWord, Assigned, WordArity;
    StepBounds(c, place, whole, words);
    WordIs(c, place, whole, words);
    var p := SplitWord(c, place, whole, words);
    match StepOf(c, place, whole, words) {
      case Stay(rest, _) =>
        roles := WordIsStable(c, rest, false, words);
        SameAssigned(c, words, roles, SplitWord(c, rest, false, words), p);
      case Take(n, _, _) =>
        roles := SplitIsStable(c, words[n..]);
        AssignOption(c, words, n, roles, Split(c, words[n..]), p);
        roles := OptionRoles(n) + roles;
      case Quit =>
        roles := [];
        NothingAssigned(c, words, p);
    }
  }

  /** An option word and its arguments. */
  ghost function OptionRoles(n: nat): (r: seq<Role>)
    requires n > 0
    ensures |r| == n && r[0] == OptionWord && forall i :: 0 < i < n ==> r[i] == Argument
  {
    [OptionWord] + seq(n - 1, _ => Argument)
  }

  lemma NothingAssigned(c: Config, words: seq<Word>, p: Parts)
    requires p.options == [] && p.operands == [] && p.rest == words
    ensures Assigned(c, words, [], p)
  {
    assert words[0..] == words;
  }

  lemma SameAssigned(c: Config, words: seq<Word>, roles: seq<Role>, p: Parts, q: Parts)
    requires Assigned(c, words, roles, p) && p.options == q.options && p.operands == q.operands && p.rest == q.rest
    ensures Assigned(c, words, roles, q)
  {
    hide RoleFits, Kept;
  }

  /** What the words from `n` on take depends on these alone. */
  lemma TakenLater(c: Config, words: seq<Word>, front: seq<Role>, roles: seq<Role>, i: nat)
    requires |front| <= i < |front| + |roles| <= |words|
    requires forall j :: 0 <= j < |front| && front[j] == OptionWord && words[j] != "" && words[j] != "--" ==> WordArity(c, words[j..]) <= |front| - j
    ensures Taken(c, words, front + roles, i) <==> Taken(c, words[|front|..], roles, i - |front|)
  {
    hide WordArity, Takes;
    var n, m, all, tail := |front|, i - |front|, front + roles, words[|front|..];
    if j :| 0 <= j < i && Takes(c, words, all, j, i) {
      TakesLater(c, words, front, roles, j, i);
      assert Takes(c, tail, roles, j - n, m);
    }
    if k :| 0 <= k < m && Takes(c, tail, roles, k, m) {
      TakesLater(c, words, front, roles, k + n, i);
      assert Takes(c, words, all, k + n, i);
    }
  }

  lemma TakesLater(c: Config, words: seq<Word>, front: seq<Role>, roles: seq<Role>, j: nat, i: nat)
    requires j < i && |front| <= i < |front| + |roles| <= |words|
    requires j < |front| && front[j] == OptionWord && words[j] != "" && words[j] != "--" ==> WordArity(c, words[j..]) <= |front| - j
    ensures Takes(c, words, front + roles, j, i) <==> j >= |front| && Takes(c, words[|front|..], roles, j - |front|, i - |front|)
  {
    hide WordArity;
    if j >= |front| { assert words[j..] == words[|front|..][j - |front|..]; }
  }

  lemma FitLater(c: Config, words: seq<Word>, front: seq<Role>, roles: seq<Role>)
    requires |front| + |roles| <= |words|
    requires forall j :: 0 <= j < |front| && front[j] == OptionWord && words[j] != "" && words[j] != "--" ==> WordArity(c, words[j..]) <= |front| - j
    requires forall i :: 0 <= i < |roles| ==> RoleFits(c, words[|front|..], roles, i)
    ensures forall i :: |front| <= i < |front| + |roles| ==> RoleFits(c, words, front + roles, i)
  {
    hide WordArity, Taken, IsOperand;
    forall i | |front| <= i < |front| + |roles| ensures RoleFits(c, words, front + roles, i) {
      TakenLater(c, words, front, roles, i);
      assert RoleFits(c, words[|front|..], roles, i - |front|);
    }
  }

  lemma KeptIs(a: seq<Word>, r: seq<Role>, operands: bool)
    requires |a| == |r|
    ensures a == [] ==> Kept(a, r, operands) == []
    ensures a != [] ==> Kept(a, r, operands) == (if (r[0] == Operand) == operands then [a[0]] else []) + Kept(a[1..], r[1..], operands)
  {
  }

  lemma {:induction false} KeptConcat(a: seq<Word>, r: seq<Role>, b: seq<Word>, s: seq<Role>, operands: bool)
    requires |a| == |r| && |b| == |s|
    ensures Kept(a + b, r + s, operands) == Kept(a, r, operands) + Kept(b, s, operands)
  {
    hide *;
    KeptIs(a, r, operands);
    if a == [] {
      assert a + b == b && r + s == s;
    } else {
      KeptConcat(a[1..], r[1..], b, s, operands);
      assert (a + b)[1..] == a[1..] + b && (r + s)[1..] == r[1..] + s;
      KeptIs(a + b, r + s, operands);
    }
  }

  lemma {:induction false} KeptAll(a: seq<Word>, r: seq<Role>)
    requires |a| == |r| && forall i :: 0 <= i < |r| ==> r[i] != Operand
    ensures Kept(a, r, false) == a && Kept(a, r, true) == []
  {
    if a != [] { KeptAll(a[1..], r[1..]); }
  }

  lemma AssignOperand(c: Config, words: seq<Word>, roles: seq<Role>, p: Parts, q: Parts)
    requires words != [] && IsOperand(c, words[0]) && Assigned(c, words[1..], roles, p)
    requires q.options == p.options && q.operands == [words[0]] + p.operands && q.rest == p.rest
    ensures Assigned(c, words, [Operand] + roles, q)
  {
    hide WordArity, IsOperand;
    var n := |roles|;
    assert words[..n + 1] == words[..1] + words[1..][..n] && words[n + 1..] == words[1..][n..];
    KeptConcat(words[..1], [Operand], words[1..][..n], roles, true);
    KeptConcat(words[..1], [Operand], words[1..][..n], roles, false);
    KeptOne(words[0]);
    assert words[..1] == [words[0]];
    FitLater(c, words, [Operand], roles);
    assert !Taken(c, words, [Operand] + roles, 0);
  }

  lemma KeptOne(w: Word)
    ensures Kept([w], [Operand], true) == [w] && Kept([w], [Operand], false) == []
  {
  }

  lemma AssignDashes(c: Config, words: seq<Word>, p: Parts)
    requires words != [] && words[0] == "--" && p.options == words[..1] && p.operands == [] && p.rest == words[1..]
    ensures Assigned(c, words, [OptionWord], p)
  {
    KeptAll(words[..1], [OptionWord]);
    assert !Taken(c, words, [OptionWord], 0);
  }

  lemma AssignOption(c: Config, words: seq<Word>, n: nat, roles: seq<Role>, p: Parts, q: Parts)
    requires 1 <= n <= |words| && words[0] != "" && words[0] != "--" && !IsOperand(c, words[0]) && WordArity(c, words) == n
    requires Assigned(c, words[n..], roles, p)
    requires q.options == words[..n] + p.options && q.operands == p.operands && q.rest == p.rest
    ensures Assigned(c, words, OptionRoles(n) + roles, q)
  {
    hide *;
    var k, front := |roles|, OptionRoles(n);
    AssignedParts(c, words[n..], roles, p);
    assert words[..n + k] == words[..n] + words[n..][..k] && words[n + k..] == words[n..][k..];
    KeptConcat(words[..n], front, words[n..][..k], roles, true);
    KeptConcat(words[..n], front, words[n..][..k], roles, false);
    KeptAll(words[..n], front);
    assert words[0..] == words;
    FitLater(c, words, front, roles);
    FrontFits(c, words, n, front + roles);
    MakeAssigned(c, words, front + roles, q);
  }

  lemma AssignedParts(c: Config, words: seq<Word>, roles: seq<Role>, p: Parts)
    requires Assigned(c, words, roles, p)
    ensures |roles| <= |words| && p.rest == words[|roles|..]
    ensures p.options == Kept(words[..|roles|], roles, false) && p.operands == Kept(words[..|roles|], roles, true)
    ensures forall i :: 0 <= i < |roles| ==> RoleFits(c, words, roles, i)
  {
  }

  lemma MakeAssigned(c: Config, words: seq<Word>, roles: seq<Role>, p: Parts)
    requires |roles| <= |words| && p.rest == words[|roles|..]
    requires p.options == Kept(words[..|roles|], roles, false) && p.operands == Kept(words[..|roles|], roles, true)
    requires forall i :: 0 <= i < |roles| ==> RoleFits(c, words, roles, i)
    ensures Assigned(c, words, roles, p)
  {
  }

  /** An option word takes the words up to its arity, and nothing takes it. */
  lemma FrontFits(c: Config, words: seq<Word>, n: nat, all: seq<Role>)
    requires 1 <= n <= |all| <= |words| && words[0] != "" && words[0] != "--" && !IsOperand(c, words[0])
    requires words[0..] == words && WordArity(c, words) == n && all[0] == OptionWord && forall i :: 0 < i < n ==> all[i] == Argument
    ensures forall i :: 0 <= i < n ==> RoleFits(c, words, all, i)
  {
    hide WordArity, IsOperand;
    assert !Taken(c, words, all, 0);
    forall i | 0 < i < n ensures RoleFits(c, words, all, i) {
      assert Takes(c, words, all, 0, i);
    }
  }

  /** What sorting out does with the first word. */
  lemma SplitCases(c: Config, words: seq<Word>)
    ensures words == [] ==> Split(c, words) == Parts([], [], [], false, 0, [])
    ensures words != [] && IsOperand(c, words[0]) ==>
      var p, q := Split(c, words), Split(c, words[1..]); p.options == q.options && p.operands == [words[0]] + q.operands && p.rest == q.rest && p.quits == q.quits
  {
    hide StepOf;
  }

  /** A whole scan, call after call until the end: what is reported, how the vector is left, and
      where `optind` stands. */
  method ScanAll(config: Config, argv: array<Word>, first: nat) returns (events: seq<Event>, optind: nat)
    requires 1 <= first <= argv.Length
    modifies argv
    ensures var p := Split(config, old(argv[first..]));
            events == p.events && Arranged(argv[..], old(argv[..]), first, optind, p)
  {
    hide *;
    var s := new Scanner(config, argv, first);
    ghost var orig := argv[..];
    assert orig[first..] == argv[first..];
    events := [];
    while true
      invariant s.Valid() && fresh(s) && s.orig == orig && s.argv == argv && s.first == first && s.config == config && s.events == events
      decreases argv.Length - s.optind, if s.place == "" then 1 else 0, |s.place|
    {
      s.ValidParts();
      var out := s.Getopt();
      match out {
        case End =>
          s.OverParts();
          return events, s.optind;
        case Opt(code) => events := events + [Event(code, s.optarg)];
      }
      s.ValidParts();
    }
  }

  /** A word that ends in a dash, other than the lone dash and "--". */
  predicate EndsInDash(w: Word) {
    |w| >= 2 && w[|w| - 1] == '-' && w != "--"
  }

  predicate DashLetter(c: Config) {
    Index(c.letters, '-') < |c.letters|
  }

  lemma QuitIsDash(c: Config, place: Word, whole: bool, words: seq<Word>)
    requires place != "" && words != [] && StepOf(c, place, whole, words).Quit?
    ensures place == "-" && !DashLetter(c) && (whole || c.longs.None?)
  {
    hide LongStep, Index, CharAt;
    if c.longs.Some? {
      LongBounds(c, c.longs.value, if place[0] == '-' then place[1..] else place,
                 place[0] != '-' && place[0] != ':' && Index(c.letters, place[0]) < |c.letters|, words, 1);
      LongAlways(c, c.longs.value, place[1..], words, 1);
      LongBounds(c, c.longs.value, place[1..], false, words, 1);
      if |words| >= 2 {
        LongAlways(c, c.longs.value, words[1], words, 2);
        LongBounds(c, c.longs.value, words[1], false, words, 2);
      }
    }
  }

  /** A scan is stopped only without long options, only when the dash is no option letter, and only at a
      word that ends in a dash. */
  lemma {:induction false} StoppedAtDash(c: Config, words: seq<Word>)
    requires Split(c, words).quits
    ensures c.longs.None? && !DashLetter(c) && Split(c, words).rest != [] && EndsInDash(Split(c, words).rest[0]) && Split(c, words).rest[0] in words
    decreases |words|, 1, 0
  {
    hide Split, SplitWord, StepOf, Index;
    SplitCases(c, words);
    if words != [] && IsOperand(c, words[0]) {
      StoppedAtDash(c, words[1..]);
    } else if words != [] && words[0] == "--" {
      SplitDashes(c, words);
    } else if words != [] {
      EnterSplit(c, words);
      var w := words[0];
      WordStoppedAtDash(c, Entered(w), |w| == 1, words);
    }
  }

  lemma {:induction false} WordStoppedAtDash(c: Config, place: Word, whole: bool, words: seq<Word>)
    requires place != "" && words != [] && SplitWord(c, place, whole, words).quits
    requires !IsOperand(c, words[0]) && words[0] != "--" && |place| <= |words[0]| && place == words[0][|words[0]| - |place|..]
    requires whole ==> |place| == |words[0]|
    ensures var p := SplitWord(c, place, whole, words); c.longs.None? && !DashLetter(c) && p.rest != [] && EndsInDash(p.rest[0]) && p.rest[0] in words
    decreases |words|, 0, |place|
  {
    hide Split, SplitWord, StepOf, Index;
    StepBounds(c, place, whole, words);
    WordIs(c, place, whole, words);
    match StepOf(c, place, whole, words) {
      case Stay(rest, _) => WordStoppedAtDash(c, rest, false, words);
      case Take(n, _, _) => StoppedAtDash(c, words[n..]);
      case Quit => QuitIsDash(c, place, whole, words);
    }
  }

  /** So a scan ends in order whenever there are long options, or the dash is an option letter, or no
      word but "-" and "--" ends in a dash. */
  lemma EndsInOrder(c: Config, words: seq<Word>)
    requires c.longs.Some? || DashLetter(c) || forall w :: w in words ==> !EndsInDash(w)
    ensures !Split(c, words).quits
  {
    hide *;
    if Split(c, words).quits { StoppedAtDash(c, words); }
  }

  /** A letter that takes an argument. */
  predicate TakesArg(c: Config, ch: char) {
    ch != ':' && CharAt(c.letters, Index(c.letters, ch) + 1) == ':'
  }

  /** No letter before the dash that ends the word takes the rest of the word as its argument. */
  predicate ReachesDash(c: Config, place: Word) {
    place != "" && place[|place| - 1] == '-' && !DashLetter(c) && forall i :: 0 <= i < |place| - 1 ==> !TakesArg(c, place[i])
  }

  predicate StopsAt(c: Config, w: Word) {
    |w| >= 2 && w[0] == '-' && w != "--" && ReachesDash(c, w[1..])
  }

  /** The first letter of the word that takes an argument is the last of the word, and the argument is
      not an optional one: it is the next word. */
  predicate Eats(c: Config, place: Word) {
    place != "" &&
    if |place| == 1 then TakesArg(c, place[0]) && CharAt(c.letters, Index(c.letters, place[0]) + 2) != ':'
    else (place[0] == '-' || !TakesArg(c, place[0])) && Eats(c, place[1..])
  }

  /** The words after an option word and its argument. */
  function Beyond(c: Config, place: Word, words: seq<Word>): (rest: seq<Word>)
    requires words != []
    ensures |rest| < |words|
  {
    if Eats(c, place) && |words| >= 2 then words[2..] else words[1..]
  }

  /** Going over the words, with short options only: some option word before any "--" leads to a dash,
      and an operand was passed before it, unless one was `seen` already. */
  predicate StopsAfter(c: Config, words: seq<Word>, seen: bool)
    decreases |words|
  {
    if words == [] || words[0] == "--" then false
    else if IsOperand(c, words[0]) then StopsAfter(c, words[1..], true)
    else if StopsAt(c, words[0]) then seen
    else StopsAfter(c, Beyond(c, Entered(words[0]), words), seen)
  }

  lemma ShortStepIs(c: Config, place: Word, whole: bool, words: seq<Word>)
    requires place != "" && words != [] && c.longs.None?
    ensures var step := StepOf(c, place, whole, words);
            if |place| == 1 then step == Quit || (step.Take? && step.n == if Eats(c, place) && |words| >= 2 then 2 else 1)
            else if place[0] != '-' && TakesArg(c, place[0]) then step.Take? && step.n == 1
            else step.Stay? && step.rest == place[1..]
    ensures StepOf(c, place, whole, words).Quit? <==> place == "-" && !DashLetter(c)
    ensures TakesArg(c, '-') ==> DashLetter(c)
  {
    var a := TakesArg(c, place[0]);
    hide Index;
  }

  lemma {:induction false} WordStops(c: Config, place: Word, whole: bool, words: seq<Word>)
    requires place != "" && words != [] && c.longs.None?
    ensures var p, q := SplitWord(c, place, whole, words), Split(c, Beyond(c, place, words));
            if ReachesDash(c, place) then p.quits && p.operands == [] else p.quits == q.quits && p.operands == q.operands
    decreases |place|
  {
    hide Split, SplitWord, StepOf, Index, TakesArg;
    WordIs(c, place, whole, words);
    ShortStepIs(c, place, whole, words);
    if StepOf(c, place, whole, words).Stay? {
      var rest := place[1..];
      WordStops(c, rest, false, words);
      assert rest[|rest| - 1] == place[|place| - 1];
      assert forall i :: 0 < i < |place| - 1 ==> place[i] == rest[i - 1];
      assert forall i :: 0 <= i < |rest| - 1 ==> rest[i] == place[i + 1];
    }
  }

  lemma EnteredStops(c: Config, w: Word)
    requires !IsOperand(c, w) && w != "--"
    ensures w != "" && (StopsAt(c, w) <==> ReachesDash(c, Entered(w)))
  {
  }

  /** Exactly when a scan without long options is stopped, having passed an operand or not. */
  lemma {:induction false} ShortStopped(c: Config, words: seq<Word>, seen: bool)
    requires c.longs.None?
    ensures Split(c, words).quits && (seen || Split(c, words).operands != []) <==> StopsAfter(c, words, seen)
    decreases |words|
  {
    hide Split, SplitWord, ReachesDash, StopsAt, Beyond, Entered;
    SplitCases(c, words);
    if words == [] { return; }
    var w := words[0];
    if IsOperand(c, w) {
      ShortStopped(c, words[1..], true);
    } else if w == "--" {
      SplitDashes(c, words);
    } else {
      EnterSplit(c, words);
      EnteredStops(c, w);
      WordStops(c, Entered(w), |w| == 1, words);
      if !StopsAt(c, w) { ShortStopped(c, Beyond(c, Entered(w), words), seen); }
    }
  }

  /** Exactly when a scan is stopped, for all options and words. */
  lemma StoppedExactly(c: Config, words: seq<Word>)
    ensures Split(c, words).quits <==> c.longs.None? && StopsAfter(c, words, true)
  {
    hide *;
    if c.longs.None? {
      ShortStopped(c, words, true);
    } else if Split(c, words).quits {
      StoppedAtDash(c, words);
    }
  }

  /** Exactly when a scan leaves the vector in order, with `optind` at the first operand. */
  lemma OrderedExactly(c: Config, v: seq<Word>, orig: seq<Word>, first: nat, optind: nat)
    requires first <= |orig| && Arranged(v, orig, first, optind, Split(c, orig[first..]))
    ensures var p := Split(c, orig[first..]);
            (v == orig[..first] + p.options + p.operands + p.rest && optind == first + |p.options|)
            <==> !(c.longs.None? && StopsAfter(c, orig[first..], false))
  {
    hide *;
    var words := orig[first..];
    InOrder(v, orig, first, optind, Split(c, words));
    if c.longs.None? {
      ShortStopped(c, words, false);
    } else if Split(c, words).quits {
      StoppedAtDash(c, words);
    }
  }

  /** A word such as "-a-", read without long options, ends the scan on the spot: an operand
      skipped before it stays in front of the word, and `optind` is at the word, past the operand. */
  lemma DashStopsScan(v: seq<Word>, optind: nat)
    requires Arranged(v, ["prog", "x", "-a-"], 1, optind, Split(Config("a", None, false), ["x", "-a-"]))
    ensures Split(Config("a", None, false), ["x", "-a-"]) == Parts([], ["x"], ["-a-"], true, 0, [Event(Letter('a'), None)])
    ensures v == ["prog", "x", "-a-"] && optind == 2
  {
    DashSplit();
    hide Split;
    assert ["prog", "x", "-a-"][..1] == ["prog"];
  }

  lemma DashSplit()
    ensures var c := Config("a", None, false);
            Split(c, ["x", "-a-"]) == Parts([], ["x"], ["-a-"], true, 0, [Event(Letter('a'), None)])
  {
    var c := Config("a", None, false);
    var w := "-a-";
    assert Index("a", 'a') == 0 && Index("", '-') == 0 && Index("a", '-') == 1;
    assert w[1..] == "a-" && "a-"[1..] == "-" && "-"[1..] == "";
    assert StepOf(c, "a-", false, [w]) == Stay("-", Letter('a'));
    assert StepOf(c, "-", false, [w]) == Quit;
    assert SplitWord(c, "-", false, [w]) == Parts([], [], [w], true, 0, []);
    assert SplitWord(c, "a-", false, [w]) == Parts([], [], [w], true, 0, [Event(Letter('a'), None)]);
    assert !IsOperand(c, w) && IsOperand(c, "x");
    assert ["x", w][1..] == [w];
    assert Split(c, [w]) == Parts([], [], [w], true, 0, [Event(Letter('a'), None)]);
  }
}
