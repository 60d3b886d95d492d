/** The command recogniser of the Elo bot: the regular expression

      !elo (game|confirm)(?: (?:/u/)?(\S*) (?:/u/)?(\S*))?

    applied with `search` to the lower-cased comment body, written out
    as an explicit scanner. */
module Command {
  import opened Wrappers
  import opened Text

  /** The string the bot looks for. */
  const CallString: string := "!elo"

  /** The prefix a reddit user mention may carry. */
  const Mention: string := "/u/"

  /** The two actions, in the order the protocol lists them: a report of a
      finished game, then the confirmation of such a report. */
  datatype Action = Game | Confirm

  function Keyword(a: Action): string {
    match a
    case Game => "game"
    case Confirm => "confirm"
  }

  /** What a successful search yields: where the match starts, the action
      (group 1) and, when the optional tail took part, the two participant
      tokens (groups 2 and 3). */
  datatype Match = Match(start: nat, action: Action, players: Option<(string, string)>)

  /** The action whose call "!elo <keyword>" begins at `i`, if any. The
      alternation tries "game" before "confirm". */
  function ActionAt(t: string, i: nat): Option<Action>
    requires i <= |t|
  {
    if StartsWith(t[i..], CallString + " " + Keyword(Game)) then Some(Game)
    else if StartsWith(t[i..], CallString + " " + Keyword(Confirm)) then Some(Confirm)
    else None
  }

  /** The position just after "!elo <keyword>" starting at `i`. */
  function CallEnd(i: nat, a: Action): nat {
    i + |CallString| + 1 + |Keyword(a)|
  }

  /** The end of the maximal run of non-whitespace starting at `i` (`\S*`). */
  function RunEnd(t: string, i: nat): (j: nat)
    requires i <= |t|
    ensures i <= j <= |t|
    ensures NoSpace(t[i..j])
    ensures j == |t| || IsSpace(t[j])
    decreases |t| - i
  {
    if i == |t| || IsSpace(t[i]) then i else RunEnd(t, i + 1)
  }

  /** `(?:/u/)?` is greedy: the prefix is consumed whenever it is there. */
  function SkipMention(t: string, i: nat): (j: nat)
    requires i <= |t|
    ensures i <= j <= |t|
  {
    if StartsWith(t[i..], Mention) then i + |Mention| else i
  }

  /** The optional tail takes part exactly when a space follows the keyword,
      then a run without whitespace, then another space. */
  ghost predicate PairFollows(t: string, p: nat) {
    && p < |t| && t[p] == ' '
    && exists k :: p < k < |t| && t[k] == ' ' && NoSpace(t[p + 1..k])
  }

  /** `x` is the participant token spelled in `t[i..j]`: the mention prefix
      when the text has one, followed by `x`, which has no whitespace. */
  ghost predicate TokenAt(t: string, i: nat, x: string, j: nat) {
    && i <= j <= |t| && NoSpace(x)
    && (if StartsWith(t[i..], Mention) then t[i..j] == Mention + x else t[i..j] == x)
  }

  /** The text after position `p` spells " x y": a space, the token `x`, a
      space, and the token `y` running up to the end or to whitespace. */
  ghost predicate Spelled(t: string, p: nat, x: string, y: string) {
    exists j: nat, j': nat, k: nat ::
      && p < j < |t| && j' == j + 1 && t[p] == ' ' && TokenAt(t, p + 1, x, j) && t[j] == ' '
      && TokenAt(t, j', y, k) && (k == |t| || IsSpace(t[k]))
  }

  /** Where groups 2 and 3 lie for a call ending at `p`: the first token
      at `t[a0..a1]`, the second at `t[b0..b1]`. */
  function TokenBounds(t: string, p: nat): (r: Option<(nat, nat, nat, nat)>)
    requires p <= |t|
    ensures r.Some? ==> p < r.value.0 <= r.value.1 < r.value.2 <= r.value.3 <= |t|
  {
    if p < |t| && t[p] == ' ' then
      var a0 := SkipMention(t, p + 1);
      var a1 := RunEnd(t, a0);
      if a1 < |t| && t[a1] == ' ' then
        var b0 := SkipMention(t, a1 + 1);
        Some((a0, a1, b0, RunEnd(t, b0)))
      else
        None
    else
      None
  }

  /** Groups 2 and 3 for a call ending at `p`. */
  function Participants(t: string, p: nat): Option<(string, string)>
    requires p <= |t|
  {
    var b := TokenBounds(t, p);
    if b.None? then None else Some((t[b.value.0..b.value.1], t[b.value.2..b.value.3]))
  }

  /** The participants are there exactly when the optional tail can match,
      and then they are the tokens it spells. */
  lemma ParticipantsMeaning(t: string, p: nat)
    requires p <= |t|
    ensures Participants(t, p).Some? <==> PairFollows(t, p)
    ensures Participants(t, p).Some? ==> Spelled(t, p, Participants(t, p).value.0, Participants(t, p).value.1)
  {
    if Participants(t, p).Some? {
      ParticipantsFound(t, p);
    } else {
      ParticipantsAbsent(t, p);
    }
  }

  lemma ParticipantsFound(t: string, p: nat)
    requires p <= |t| && Participants(t, p).Some?
    ensures PairFollows(t, p) && Spelled(t, p, Participants(t, p).value.0, Participants(t, p).value.1)
  {
    var (a0, a1, b0, b1) := TokenBounds(t, p).value;
    PairSpelled(t, p, a0, a1, b0, b1);
  }

  lemma ParticipantsAbsent(t: string, p: nat)
    requires p <= |t| && Participants(t, p).None?
    ensures !PairFollows(t, p)
  {
    if p < |t| && t[p] == ' ' {
      var a0 := SkipMention(t, p + 1);
      NoPair(t, p, a0, RunEnd(t, a0));
    }
  }

  lemma PairSpelled(t: string, p: nat, a0: nat, a1: nat, b0: nat, b1: nat)
    requires p < |t| && t[p] == ' ' && a0 == SkipMention(t, p + 1) && a1 == RunEnd(t, a0)
    requires a1 < |t| && t[a1] == ' ' && b0 == SkipMention(t, a1 + 1) && b1 == RunEnd(t, b0)
    ensures PairFollows(t, p) && Spelled(t, p, t[a0..a1], t[b0..b1])
  {
    TokenWitness(t, p + 1, a0, a1);
    TokenWitness(t, a1 + 1, b0, b1);
    PairWitness(t, p, a1);
    SpelledBy(t, p, t[a0..a1], t[b0..b1], a1, b1);
  }

  lemma SpelledBy(t: string, p: nat, x: string, y: string, j: nat, k: nat)
    requires p < j < |t| && t[p] == ' ' && TokenAt(t, p + 1, x, j) && t[j] == ' '
    requires TokenAt(t, j + 1, y, k) && (k == |t| || IsSpace(t[k]))
    ensures Spelled(t, p, x, y)
  {
  }

  lemma TokenWitness(t: string, i: nat, a0: nat, a1: nat)
    requires i <= |t| && a0 == SkipMention(t, i) && a1 == RunEnd(t, a0)
    ensures TokenAt(t, i, t[a0..a1], a1)
    ensures NoSpace(t[i..a1])
  {
    if StartsWith(t[i..], Mention) {
      assert t[i..a1] == Mention + t[a0..a1];
      assert forall n :: 0 <= n < |Mention| ==> !IsSpace(Mention[n]);
    }
  }

  lemma PairWitness(t: string, p: nat, a1: nat)
    requires p < |t| && t[p] == ' ' && a1 == RunEnd(t, SkipMention(t, p + 1))
    requires a1 < |t| && t[a1] == ' '
    ensures PairFollows(t, p)
  {
    TokenWitness(t, p + 1, SkipMention(t, p + 1), a1);
  }

  lemma NoPair(t: string, p: nat, a0: nat, a1: nat)
    requires p < |t| && t[p] == ' ' && a0 == SkipMention(t, p + 1) && a1 == RunEnd(t, a0)
    requires !(a1 < |t| && t[a1] == ' ')
    ensures !PairFollows(t, p)
  {
    TokenWitness(t, p + 1, a0, a1);
    if PairFollows(t, p) {
      var k :| p < k < |t| && t[k] == ' ' && NoSpace(t[p + 1..k]);
      if k < a1 {
        SpaceInside(t, p + 1, a1, k);
      } else if a1 < k {
        SpaceInside(t, p + 1, k, a1);
      }
      assert false;
    }
  }

  /** A position inside a run without whitespace holds no whitespace. */
  lemma SpaceInside(t: string, i: nat, j: nat, k: nat)
    requires i <= k < j <= |t| && NoSpace(t[i..j])
    ensures !IsSpace(t[k])
  {
    assert t[i..j][k - i] == t[k];
  }

  /** Leftmost search from `i` on. */
  function SearchFrom(t: string, i: nat): Option<Match>
    requires i <= |t|
    decreases |t| - i
  {
    match ActionAt(t, i)
    case Some(a) =>
      CallFits(t, i);
      Some(Match(i, a, Participants(t, CallEnd(i, a))))
    case None => if i == |t| then None else SearchFrom(t, i + 1)
  }

  /** The search finds nothing exactly when no call starts at or after `i`;
      otherwise it finds the first such call, with its participants. */
  lemma {:induction false} SearchMeaning(t: string, i: nat)
    requires i <= |t|
    ensures SearchFrom(t, i).None? <==> forall j :: i <= j <= |t| ==> ActionAt(t, j).None?
    ensures SearchFrom(t, i).Some? ==> Found(t, i, SearchFrom(t, i).value)
    decreases |t| - i
  {
    match ActionAt(t, i)
    case Some(a) =>
      SearchHit(t, i, a);
    case None =>
      if i < |t| {
        SearchMeaning(t, i + 1);
        SearchSkip(t, i);
        var r := SearchFrom(t, i + 1);
        if r.Some? {
          forall j | i <= j < r.value.start
            ensures ActionAt(t, j).None?
          {
            if j > i {
              assert i + 1 <= j < r.value.start;
            }
          }
        } else {
          forall j | i <= j <= |t|
            ensures ActionAt(t, j).None?
          {
            if j > i {
              assert i + 1 <= j <= |t|;
            }
          }
        }
      }
  }

  /** `m` is the first call at or after `i`, with its participants. */
  ghost predicate Found(t: string, i: nat, m: Match) {
    && i <= m.start <= |t|
    && ActionAt(t, m.start) == Some(m.action)
    && (forall j :: i <= j < m.start ==> ActionAt(t, j).None?)
    && CallEnd(m.start, m.action) <= |t|
    && m.players == Participants(t, CallEnd(m.start, m.action))
  }

  /** A recognised call lies within the text. */
  lemma CallFits(t: string, i: nat)
    requires i <= |t| && ActionAt(t, i).Some?
    ensures CallEnd(i, ActionAt(t, i).value) <= |t|
  {
  }

  /** `BOTCALLRE.search(body.lower())`: the leftmost "!elo game" or
      "!elo confirm" in the lower-cased body, with its participants. */
  function Recognise(body: string): Option<Match> {
    SearchFrom(Lower(body), 0)
  }

  /** In the lower-cased body: no match exactly when no call starts
      anywhere; otherwise the match is the leftmost call, and its
      participants are what the optional tail spells after it. */
  lemma RecogniseMeaning(body: string)
    ensures var t := Lower(body); var r := Recognise(body);
      && (r.None? <==> forall j :: 0 <= j <= |t| ==> ActionAt(t, j).None?)
      && (r.Some? ==>
            && r.value.start <= |t|
            && ActionAt(t, r.value.start) == Some(r.value.action)
            && (forall j :: 0 <= j < r.value.start ==> ActionAt(t, j).None?)
            && CallEnd(r.value.start, r.value.action) <= |t|
            && r.value.players == Participants(t, CallEnd(r.value.start, r.value.action)))
  {
    SearchMeaning(Lower(body), 0);
  }

  /** Participant tokens never hold whitespace, so they are safe to store. */
  lemma PlayersHaveNoSpace(body: string)
    requires Recognise(body).Some? && Recognise(body).value.players.Some?
    ensures NoSpace(Recognise(body).value.players.value.0)
    ensures NoSpace(Recognise(body).value.players.value.1)
  {
    var t := Lower(body);
    var m := Recognise(body).value;
    SearchMeaning(t, 0);
    ParticipantsNoSpace(t, CallEnd(m.start, m.action));
  }

  lemma ParticipantsNoSpace(t: string, p: nat)
    requires p <= |t| && Participants(t, p).Some?
    ensures NoSpace(Participants(t, p).value.0) && NoSpace(Participants(t, p).value.1)
  {
    var (a0, a1, b0, b1) := TokenBounds(t, p).value;
    assert RunEnd(t, a0) == a1 && RunEnd(t, b0) == b1;
  }

  /** There is no word boundary after the keyword: "gamer" is the action
      "game" with no participants. */
  lemma GamerIsGame()
    ensures Recognise("!elo gamer") == Some(Match(0, Game, None))
  {
    var t := Lower("!elo gamer");
    assert t == "!elo gamer";
    assert ActionAt(t, 0) == Some(Game);
    assert t[9] == 'r';
  }

  lemma StartsWithAt(t: string, i: nat, p: string)
    requires i + |p| <= |t| && t[i..i + |p|] == p
    ensures StartsWith(t[i..], p)
  {
    assert t[i..][..|p|] == t[i..i + |p|];
  }

  lemma NotStartsWithAt(t: string, i: nat, p: string, n: nat)
    requires i <= |t| && n < |p|
    requires i + n >= |t| || t[i + n] != p[n]
    ensures !StartsWith(t[i..], p)
  {
  }

  /** The search passes over a position where no call starts. */
  lemma SearchSkip(t: string, i: nat)
    requires i < |t| && ActionAt(t, i).None?
    ensures SearchFrom(t, i) == SearchFrom(t, i + 1)
  {
  }

  /** The search stops at the first position where a call starts. */
  lemma SearchHit(t: string, i: nat, a: Action)
    requires i <= |t| && ActionAt(t, i) == Some(a)
    ensures CallEnd(i, a) <= |t|
    ensures SearchFrom(t, i) == Some(Match(i, a, Participants(t, CallEnd(i, a))))
  {
    CallFits(t, i);
  }

  /** The body is lower-cased and the mention prefix is dropped. */
  lemma MentionsAreStripped()
    ensures Recognise("!ELO game /u/Al Bo") == Some(Match(0, Game, Some(("al", "bo"))))
  {
    var t := "!elo game /u/al bo";
    LowerMention();
    GameAtStart(t);
    MentionExample(t);
    SearchHit(t, 0, Game);
  }

  lemma LowerMention()
    ensures Lower("!ELO game /u/Al Bo") == "!elo game /u/al bo"
  {
  }

  lemma GameAtStart(t: string)
    requires t == "!elo game /u/al bo"
    ensures ActionAt(t, 0) == Some(Game)
  {
    var call := CallString + " " + Keyword(Game);
    assert t[0..9] == call;
    StartsWithAt(t, 0, call);
  }

  lemma MentionExample(t: string)
    requires t == "!elo game /u/al bo"
    ensures Participants(t, 9) == Some(("al", "bo"))
  {
    assert t[10..13] == "/u/";
    StartsWithAt(t, 10, Mention);
    assert SkipMention(t, 10) == 13;
    assert RunEnd(t, 15) == 15;
    assert RunEnd(t, 14) == 15;
    assert RunEnd(t, 13) == 15;
    assert t[13..15] == "al";
    assert SkipMention(t, 16) == 16 by {
      NotStartsWithAt(t, 16, Mention, 0);
    }
    assert RunEnd(t, 17) == 18;
    assert RunEnd(t, 16) == 18;
    assert t[16..18] == "bo";
  }

  /** Only the first command in a body counts: whatever text without a
      "!" precedes a call, and whatever text follows it, the search stops
      at that call and reads its participants from the text after it. */
  lemma FirstCommandWins(pre: string, a: Action, rest: string)
    requires '!' !in pre
    ensures var call := CallString + " " + Keyword(a);
      Recognise(pre + call + rest) == Some(Match(|pre|, a, Participants(Lower(pre + call + rest), |pre| + |call|)))
  {
    var call := CallString + " " + Keyword(a);
    var body := pre + call + rest;
    var t := Lower(body);
    var p := |pre|;
    CallAt(pre, a, rest);
    assert pre + (call + rest) == body;
    NoCallBefore(pre, call + rest);
    SearchHit(t, p, a);
  }

  /** A first call not followed by a space has no participants. */
  lemma FirstCommandAlone(pre: string, a: Action, rest: string)
    requires '!' !in pre
    requires rest == [] || rest[0] != ' '
    ensures Recognise(pre + CallString + " " + Keyword(a) + rest) == Some(Match(|pre|, a, None))
  {
    var call := CallString + " " + Keyword(a);
    assert pre + CallString + " " + Keyword(a) + rest == pre + call + rest;
    CallAfter(pre, a, rest);
    FirstCommandWins(pre, a, rest);
  }

  /** No call starts inside a prefix without "!". */
  lemma NoCallBefore(pre: string, rest: string)
    requires '!' !in pre
    ensures SearchFrom(Lower(pre + rest), 0) == SearchFrom(Lower(pre + rest), |pre|)
  {
    var body := pre + rest;
    var t := Lower(body);
    forall j | 0 <= j < |pre|
      ensures t[j] != '!'
    {
      assert body[j] == pre[j];
      assert pre[j] != '!' by {
        assert pre[j] in pre;
      }
      assert t[j] == LowerChar(pre[j]);
    }
    SkipToBang(t, 0, |pre|);
  }

  /** The search passes over a stretch without "!". */
  lemma {:induction false} SkipToBang(t: string, i: nat, k: nat)
    requires i <= k <= |t|
    requires forall j :: i <= j < k ==> t[j] != '!'
    ensures SearchFrom(t, i) == SearchFrom(t, k)
    decreases k - i
  {
    if i < k {
      NoBangNoCall(t, i);
      SearchSkip(t, i);
      SkipToBang(t, i + 1, k);
    }
  }

  /** Every call starts with "!". */
  lemma NoBangNoCall(t: string, j: nat)
    requires j < |t| && t[j] != '!'
    ensures ActionAt(t, j).None?
  {
    NotStartsWithAt(t, j, CallString + " " + Keyword(Game), 0);
    NotStartsWithAt(t, j, CallString + " " + Keyword(Confirm), 0);
  }

  /** The call sits, lower-case already, right after `pre`. */
  lemma CallAfter(pre: string, a: Action, rest: string)
    requires rest == [] || rest[0] != ' '
    ensures var call := CallString + " " + Keyword(a); var t := Lower(pre + call + rest);
      && |pre| + |call| <= |t| && ActionAt(t, |pre|) == Some(a) && CallEnd(|pre|, a) == |pre| + |call|
      && Participants(t, |pre| + |call|) == None
  {
    CallAt(pre, a, rest);
    var call := CallString + " " + Keyword(a);
    var body := pre + call + rest;
    var p := |pre|;
    if p + |call| < |body| {
      assert body[p + |call|] == rest[0];
    }
  }

  lemma CallAt(pre: string, a: Action, rest: string)
    ensures var call := CallString + " " + Keyword(a); var t := Lower(pre + call + rest);
      && |pre| + |call| <= |t| && ActionAt(t, |pre|) == Some(a) && CallEnd(|pre|, a) == |pre| + |call|
  {
    var call := CallString + " " + Keyword(a);
    var body := pre + call + rest;
    var t := Lower(body);
    var p := |pre|;
    CallIsLower(a);
    forall k | 0 <= k < |call|
      ensures t[p + k] == call[k]
    {
      assert body[p + k] == call[k];
      assert t[p + k] == LowerChar(call[k]);
      assert Lower(call)[k] == LowerChar(call[k]);
    }
    assert t[p..p + |call|] == call;
    StartsWithAt(t, p, call);
    if a == Confirm {
      NotStartsWithAt(t, p, CallString + " " + Keyword(Game), 5);
    }
  }

  /** The calls are written in lower case already. */
  lemma CallIsLower(a: Action)
    ensures Lower(CallString + " " + Keyword(a)) == CallString + " " + Keyword(a)
  {
    LowerOfLowerCase(CallString + " " + Keyword(a));
  }

  /** A user name as people type it in a report: no whitespace, no capital
      letters, and not starting with "/". */
  predicate PlainName(x: string) {
    && NoSpace(x)
    && (forall i :: 0 <= i < |x| ==> !('A' <= x[i] <= 'Z'))
    && (x == [] || x[0] != '/')
  }

  lemma {:induction false} RunEndAt(t: string, i: nat, j: nat)
    requires i <= j <= |t| && NoSpace(t[i..j]) && (j == |t| || IsSpace(t[j]))
    ensures RunEnd(t, i) == j
    decreases j - i
  {
    if i < j {
      assert t[i..j][0] == t[i];
      assert t[i + 1..j] == t[i..j][1..];
      RunEndAt(t, i + 1, j);
    }
  }

  lemma NoMentionAt(t: string, i: nat)
    requires i <= |t| && (i == |t| || t[i] != '/')
    ensures SkipMention(t, i) == i
  {
    if i < |t| {
      NotStartsWithAt(t, i, Mention, 0);
    } else {
      assert t[i..] == [];
    }
  }

  lemma NoCapitals(call: string, x: string, y: string)
    requires forall i :: 0 <= i < |call| ==> !('A' <= call[i] <= 'Z')
    requires PlainName(x) && PlainName(y)
    ensures var t := call + " " + x + " " + y; forall i :: 0 <= i < |t| ==> !('A' <= t[i] <= 'Z')
  {
    var t := call + " " + x + " " + y;
    forall i | 0 <= i < |t|
      ensures !('A' <= t[i] <= 'Z')
    {
      if i < |call| {
        assert t[i] == call[i];
      } else if i == |call| || i == |call| + 1 + |x| {
      } else if i < |call| + 1 + |x| {
        assert t[i] == x[i - |call| - 1];
      } else {
        assert t[i] == y[i - |call| - 2 - |x|];
      }
    }
  }

  lemma PairAt(t: string, p: nat, x: string, y: string)
    requires PlainName(x) && PlainName(y)
    requires p + 2 + |x| <= |t| && t[p] == ' ' && t[p + 1 + |x|] == ' '
    requires t[p + 1..p + 1 + |x|] == x && t[p + 2 + |x|..] == y
    ensures Participants(t, p) == Some((x, y))
  {
    var a1 := p + 1 + |x|;
    assert x != [] ==> t[p + 1] == x[0];
    NoMentionAt(t, p + 1);
    RunEndAt(t, p + 1, a1);
    assert y != [] ==> t[a1 + 1] == y[0];
    NoMentionAt(t, a1 + 1);
    assert t[a1 + 1..|t|] == y;
    RunEndAt(t, a1 + 1, |t|);
    PairBetween(t, p, a1, |t|);
  }

  /** The participants when neither token carries the mention prefix. */
  lemma PairBetween(t: string, p: nat, a1: nat, b1: nat)
    requires p < a1 < |t| && t[p] == ' ' && t[a1] == ' ' && b1 <= |t|
    requires SkipMention(t, p + 1) == p + 1 && RunEnd(t, p + 1) == a1
    requires SkipMention(t, a1 + 1) == a1 + 1 && RunEnd(t, a1 + 1) == b1
    ensures Participants(t, p) == Some((t[p + 1..a1], t[a1 + 1..b1]))
  {
    var b := TokenBounds(t, p);
    assert b == Some((p + 1, a1, a1 + 1, b1));
    assert b.value.0 == p + 1 && b.value.1 == a1 && b.value.2 == a1 + 1 && b.value.3 == b1;
  }

  lemma PairAfter(call: string, x: string, y: string)
    requires PlainName(x) && PlainName(y)
    ensures var t := call + " " + x + " " + y; Participants(t, |call|) == Some((x, y))
  {
    var t := call + " " + x + " " + y;
    var p := |call|;
    assert t[p + 1..p + 1 + |x|] == x;
    assert t[p + 2 + |x|..] == y;
    PairAt(t, p, x, y);
  }

  /** "!elo game x y" reports `x` beating `y`. */
  lemma ReportCommand(x: string, y: string)
    requires PlainName(x) && PlainName(y)
    ensures Recognise(CallString + " " + Keyword(Game) + " " + x + " " + y) == Some(Match(0, Game, Some((x, y))))
  {
    var call := CallString + " " + Keyword(Game);
    var t := call + " " + x + " " + y;
    assert |call| == 9;
    NoCapitals(call, x, y);
    LowerOfLowerCase(t);
    assert t[0..9] == call;
    StartsWithAt(t, 0, call);
    assert ActionAt(t, 0) == Some(Game);
    PairAfter(call, x, y);
  }

  /** "!elo confirm" on its own is a confirmation. */
  lemma ConfirmCommand()
    ensures Recognise("!elo confirm") == Some(Match(0, Confirm, None))
  {
    var t := CallString + " " + Keyword(Confirm);
    assert t == "!elo confirm";
    LowerOfLowerCase(t);
    NotStartsWithAt(t, 0, CallString + " " + Keyword(Game), 5);
    StartsWithAt(t, 0, t);
    assert ActionAt(t, 0) == Some(Confirm);
  }
}
