/** What the deflater makes of its input: at each position a search, and a decision between a literal, a match,
    and a match held back until the next position has been searched. */
module LazyParse {
  import opened Bits
  import opened BlockFormat
  import opened HashChains
  import opened MatchSearch

  datatype Options = Options(greedy: bool, runsOnly: bool, filter: bool, forceStatic: bool, forceRaw: bool, maxProbes: seq<nat>)

  /** `tdefl_init`: what the low twelve flag bits and the other flags mean.  As many positions are looked at as those bits
      say, in whole rounds of three, and a quarter of them when 32 bytes are known to match. */
  function MakeOptions(probes: nat, greedy: bool, runsOnly: bool, filter: bool, forceStatic: bool, forceRaw: bool): (o: Options)
    requires probes < 4096
    ensures ValidOptions(o) && probes <= 3 * (o.maxProbes[0] - 1) < probes + 3 && probes / 4 <= 3 * (o.maxProbes[1] - 1) < probes / 4 + 3
    ensures o.greedy == greedy && o.runsOnly == runsOnly && o.filter == filter && o.forceStatic == forceStatic && o.forceRaw == forceRaw
  {
    Options(greedy, runsOnly, filter, forceStatic, forceRaw, [1 + (probes + 2) / 3, 1 + (probes / 4 + 2) / 3])
  }

  predicate ValidOptions(o: Options) {
    |o.maxProbes| == 2 && o.maxProbes[0] >= 1 && o.maxProbes[1] >= 1
  }

  /** A match held back, with the byte at which it begins. */
  datatype Held = Nothing | Held(len: nat, dist: nat, lit: Byte)

  /** A search is for something longer than the match held back, or than two bytes. */
  function Known(h: Held): nat {
    if h.Held? then h.len else 2
  }

  /** What is found at a place: by the hash chains, or only runs, or nothing. */
  ghost predicate Found(o: Options, seen: seq<Byte>, w: Place, known: nat, dist: nat, len: nat)
    requires ValidOptions(o)
  {
    if o.forceRaw || (o.runsOnly && w.size == 0) then dist == 0 && len == known
    else if o.runsOnly then RunFound(seen, w, dist, len)
    else Searched(seen, w, known, o.maxProbes[if known >= 32 then 1 else 0] - 1, dist, len)
  }

  datatype Candidate = Candidate(dist: nat, len: nat)

  /** Matches that do not pay are dropped: three bytes from far back, and short ones if so asked; and so is a match
      whose distance happens to be the place in the ring. */
  function Kept(o: Options, at: nat, dist: nat, len: nat): Candidate {
    if (len == 3 && dist >= 8 * 1024) || at % DICT_SIZE == dist || (o.filter && len <= 5) then Candidate(0, 0) else Candidate(dist, len)
  }

  ghost predicate Considered(o: Options, seen: seq<Byte>, w: Place, known: nat, c: Candidate)
    requires ValidOptions(o)
  {
    exists dist: nat, len: nat :: Found(o, seen, w, known, dist, len) && c == Kept(o, w.at, dist, len)
  }

  datatype Decision = Decision(tokens: seq<Token>, held: Held, move: nat)

  /** What is recorded, what is held back, and how far the lookahead moves. */
  function Decide(o: Options, h: Held, lit: Byte, c: Candidate): Decision {
    if h.Held? then
      if c.len <= h.len then Decision([Match(h.len, h.dist)], Nothing, if h.len > 0 then h.len - 1 else 0)
      else if c.len >= 128 then Decision([Literal(h.lit), Match(c.len, c.dist)], Nothing, c.len)
      else Decision([Literal(h.lit)], Held(c.len, c.dist, lit), 1)
    else if c.dist == 0 then Decision([Literal(lit)], Nothing, 1)
    else if o.greedy || o.runsOnly || c.len >= 128 then Decision([Match(c.len, c.dist)], Nothing, c.len)
    else Decision([], Held(c.len, c.dist, lit), 1)
  }

  /** One step of the parser: where it searched, and what it considered. */
  datatype Step = Step(place: Place, candidate: Candidate)

  datatype Parser = Parser(tokens: seq<Token>, held: Held, at: nat)

  /** The byte at a position; the value beyond the end does not matter. */
  function ByteAt(seen: seq<Byte>, at: nat): Byte {
    if at < |seen| then seen[at] else 0
  }

  /** All that has been recorded after so many steps, across blocks. */
  function Replay(o: Options, seen: seq<Byte>, steps: seq<Step>): Parser {
    if steps == [] then Parser([], Nothing, 0)
    else
      var p, s := Replay(o, seen, steps[..|steps| - 1]), steps[|steps| - 1];
      var d := Decide(o, p.held, ByteAt(seen, p.at), s.candidate);
      Parser(p.tokens + d.tokens, d.held, p.at + d.move)
  }

  /** A step that follows so many others searched where it had to, and considered what it found. */
  ghost predicate Follows(o: Options, seen: seq<Byte>, p: Parser, s: Step)
    requires ValidOptions(o)
  {
    var w := s.place;
    && w.at == p.at && w.at + w.look <= |seen| && 1 <= w.look <= 258
    && w.from <= w.at && w.size == (if w.at - w.from <= DICT_SIZE - w.look then w.at - w.from else DICT_SIZE - w.look)
    && Considered(o, seen[..w.at + w.look], w, Known(p.held), s.candidate)
  }

  ghost predicate Justified(o: Options, seen: seq<Byte>, steps: seq<Step>)
    requires ValidOptions(o)
  {
    forall i :: 0 <= i < |steps| ==> Follows(o, seen, Replay(o, seen, steps[..i]), steps[i])
  }

  /** More input changes nothing about the steps that have been taken. */
  lemma {:induction false} ReplayMore(o: Options, seen: seq<Byte>, steps: seq<Step>, more: seq<Byte>)
    requires ValidOptions(o) && Justified(o, seen, steps)
    ensures Replay(o, seen + more, steps) == Replay(o, seen, steps) && Justified(o, seen + more, steps)
  {
    hide Considered, Decide;
    if steps != [] {
      var n := |steps| - 1;
      JustifiedFront(o, seen, steps);
      ReplayMore(o, seen, steps[..n], more);
      var p := Replay(o, seen, steps[..n]);
      assert Follows(o, seen, p, steps[n]);
      FollowsMore(o, seen, p, steps[n], more);
      JustifiedSnoc(o, seen + more, steps[..n], steps[n]);
      assert steps[..n] + [steps[n]] == steps;
    }
  }

  lemma JustifiedFront(o: Options, seen: seq<Byte>, steps: seq<Step>)
    requires ValidOptions(o) && steps != [] && Justified(o, seen, steps)
    ensures Justified(o, seen, steps[..|steps| - 1])
  {
    hide Follows, Replay;
    var front := steps[..|steps| - 1];
    forall i | 0 <= i < |front| ensures Follows(o, seen, Replay(o, seen, front[..i]), front[i]) {
      assert front[..i] == steps[..i];
      assert Follows(o, seen, Replay(o, seen, steps[..i]), steps[i]);
    }
  }

  lemma FollowsMore(o: Options, seen: seq<Byte>, p: Parser, s: Step, more: seq<Byte>)
    requires ValidOptions(o) && Follows(o, seen, p, s)
    ensures Follows(o, seen + more, p, s) && ByteAt(seen + more, p.at) == ByteAt(seen, p.at)
  {
    hide Considered;
    assert (seen + more)[..s.place.at + s.place.look] == seen[..s.place.at + s.place.look];
  }

  /** One step more. */
  lemma JustifiedSnoc(o: Options, seen: seq<Byte>, steps: seq<Step>, s: Step)
    requires ValidOptions(o) && Justified(o, seen, steps) && Follows(o, seen, Replay(o, seen, steps), s)
    ensures Justified(o, seen, steps + [s])
    ensures var p := Replay(o, seen, steps);
            var d := Decide(o, p.held, ByteAt(seen, p.at), s.candidate);
            Replay(o, seen, steps + [s]) == Parser(p.tokens + d.tokens, d.held, p.at + d.move)
  {
    hide Follows, Decide, Justified;
    var all := steps + [s];
    assert all[..|steps|] == steps;
    JustifiedAll(o, seen, steps, s);
  }

  lemma JustifiedAll(o: Options, seen: seq<Byte>, steps: seq<Step>, s: Step)
    requires ValidOptions(o) && Justified(o, seen, steps) && Follows(o, seen, Replay(o, seen, steps), s)
    ensures Justified(o, seen, steps + [s])
  {
    hide Follows, Replay;
    var all := steps + [s];
    assert all[..|steps|] == steps;
    forall i | 0 <= i < |all| ensures Follows(o, seen, Replay(o, seen, all[..i]), all[i]) {
      if i < |steps| {
        assert all[..i] == steps[..i];
        assert Follows(o, seen, Replay(o, seen, steps[..i]), steps[i]);
      }
    }
  }

  /** A candidate repeats the input and is longer than what is known, or there is none. */
  lemma ConsideredIs(o: Options, seen: seq<Byte>, w: Place, known: nat, c: Candidate)
    requires ValidOptions(o) && known >= 2 && Considered(o, seen, w, known, c)
    ensures c.dist == 0 ==> c.len <= known
    ensures c.dist != 0 ==> 3 <= c.len <= w.look && c.dist <= 32768 && Repeats(seen, w.at, c.dist, c.len)
    ensures c.dist != 0 ==> !(c.len == 3 && c.dist >= 8192) && c.dist != w.at % 32768 && (o.filter ==> c.len > 5)
  {
    hide Repeats, Differs, Longest, Nearest;
  }

  /** Where something is found and nothing kept, it did not pay. */
  lemma DroppedIs(o: Options, seen: seq<Byte>, w: Place, known: nat, c: Candidate)
    requires ValidOptions(o) && Considered(o, seen, w, known, c)
    ensures c != Candidate(0, 0) ==> Found(o, seen, w, known, c.dist, c.len)
    ensures c == Candidate(0, 0) ==>
              exists dist: nat, len: nat ::
                && Found(o, seen, w, known, dist, len)
                && (dist == 0 || (len == 3 && dist >= 8192) || w.at % 32768 == dist || (o.filter && len <= 5))
  {
    hide Found;
    var dist: nat, len: nat :| Found(o, seen, w, known, dist, len) && c == Kept(o, w.at, dist, len);
    assert Found(o, seen, w, known, dist, len);
  }

  /** What the parser is in, in terms of its fields. */
  function HeldOf(savedLen: nat, savedDist: nat, savedLit: Byte): Held {
    if savedLen == 0 then Nothing else Held(savedLen, savedDist, savedLit)
  }

  /** The steps account for all that has been recorded. */
  ghost predicate Decided(o: Options, seen: seq<Byte>, at: int, steps: seq<Step>, tokens: seq<Token>, held: Held)
    requires ValidOptions(o)
  {
    at >= 0 && Justified(o, seen, steps) && Replay(o, seen, steps) == Parser(tokens, held, at)
  }

  lemma DecidedMore(o: Options, seen: seq<Byte>, at: int, steps: seq<Step>, tokens: seq<Token>, held: Held, more: seq<Byte>)
    requires ValidOptions(o) && Decided(o, seen, at, steps, tokens, held)
    ensures Decided(o, seen + more, at, steps, tokens, held)
  {
    hide Justified, Replay;
    ReplayMore(o, seen, steps, more);
  }

  lemma NothingDecided(o: Options)
    requires ValidOptions(o)
    ensures Decided(o, [], 0, [], [], Nothing)
  {
  }

  /** One step of the parser, taken with all of the input in the lookahead. */
  lemma DecidedNext(o: Options, seen: seq<Byte>, at: int, steps: seq<Step>, tokens: seq<Token>, held: Held, s: Step)
    requires ValidOptions(o) && Decided(o, seen, at, steps, tokens, held)
    requires var w := s.place;
             && w.at == at && w.at + w.look == |seen| && 1 <= w.look <= 258 && w.from <= w.at
             && w.size == (if w.at - w.from <= DICT_SIZE - w.look then w.at - w.from else DICT_SIZE - w.look)
    requires Considered(o, seen, s.place, Known(held), s.candidate)
    ensures var d := Decide(o, held, seen[at], s.candidate);
            Decided(o, seen, at + d.move, steps + [s], tokens + d.tokens, d.held)
  {
    hide Justified, Replay, Considered, Decide;
    assert seen[..s.place.at + s.place.look] == seen;
    JustifiedSnoc(o, seen, steps, s);
  }

  predicate Dropped(at: nat, dist: nat, len: nat) {
    (len == 3 && dist >= 8 * 1024) || at % DICT_SIZE == dist
  }

  /** A byte that is recorded by itself, with nothing held back, begins no repeat that would have paid: any repeat in the
      history with fewer positions of its hash in between than are searched has made the search find something, and
      that was dropped. */
  lemma LiteralsAreNew(o: Options, seen: seq<Byte>, steps: seq<Step>, i: nat, taken: seq<Byte>, d: nat, l: nat)
    requires ValidOptions(o) && Justified(o, seen, steps) && i < |steps| && !o.forceRaw && !o.runsOnly && !o.filter
    requires Replay(o, seen, steps[..i]).held == Nothing && steps[i].candidate.dist == 0
    requires var w := steps[i].place;
             w.at + w.look <= |seen| && taken == seen[..w.at + w.look] && 3 <= l <= w.look && 1 <= d <= w.size && Repeats(taken, w.at, d, l)
    requires var w := steps[i].place;
             && SameHash(taken, HashOf(taken, w.at), w.at - d + 1, w.at) < o.maxProbes[0] - 1
             && forall q: nat :: w.at - d <= q < w.at && HashOf(taken, q) == HashOf(taken, w.at) ==> q % 65536 != 0
    ensures var w := steps[i].place;
            exists dist: nat, len: nat :: Searched(taken, w, 2, o.maxProbes[0] - 1, dist, len) && len >= l && Dropped(w.at, dist, len)
  {
    hide Replay, SameHash, HashOf, Searched, Repeats;
    assert Follows(o, seen, Replay(o, seen, steps[..i]), steps[i]);
    var w := steps[i].place;
    var dist: nat, len: nat :| Found(o, taken, w, 2, dist, len) && steps[i].candidate == Kept(o, w.at, dist, len);
    RepeatIsFound(taken, w, 2, o.maxProbes[0] - 1, dist, len, d, l);
    assert Searched(taken, w, 2, o.maxProbes[0] - 1, dist, len) && len >= l && Dropped(w.at, dist, len);
  }
}
