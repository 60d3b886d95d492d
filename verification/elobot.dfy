/** One pass of the Elo bot over a batch of comments: the body of the
    polling loop of `run_bot`, with the Reddit calls turned into effects. */
module EloBot {
  import opened Wrappers
  import opened Text
  import opened Command
  import opened Rating
  import opened Tables

  /** What the bot knows about its surroundings: its own account name,
      whether it moderates the subreddit (flair needs that), and the power
      function x |-> 10^x. */
  datatype Config = Config(botName: string, moderator: bool, pow: Power)

  /** The parts of a comment the loop reads. `name` is the comment's own
      id; `parentId` the id of the thing it answers. The author's name is
      missing when the comment or its account was deleted. */
  datatype Comment = Comment(name: string, author: Option<string>, parentId: string, body: string)

  /** A comment with an author other than the bot itself. */
  predicate ByOther(cfg: Config, c: Comment) {
    c.author.Some? && c.author.value != cfg.botName
  }

  /** The replies the bot writes, without signature. */
  datatype Template =
    | SameUser
    | PleaseConfirm(user: string)
    | Confirmation(winner: string, winnerRating: int, loser: string, loserRating: int)

  /** The calls the loop makes on the outside world, in order. */
  datatype Effect =
    | Post(target: string, template: Template)
    | Flair(user: string, rating: int)
    | Save(tables: State)

  /** The outcome of one comment: the loop either goes on with the next
      comment, or an exception ends the pass over the batch, leaving the
      tables as far as they got. */
  datatype Outcome = Continue(state: State, effects: seq<Effect>) | Abort(state: State, effects: seq<Effect>)

  /** A report naming the same user twice, compared case-insensitively. */
  predicate SelfPlay(players: (string, string)) {
    Lower(players.0) == Lower(players.1)
  }

  predicate IsRequest(e: Effect, id: string, name: string) {
    e == Post(id, PleaseConfirm(name))
  }

  function Requests(id: string, r: Report): seq<Effect> {
    (if r.winner.confirmed then [] else [Post(id, PleaseConfirm(r.winner.name))])
    + (if r.loser.confirmed then [] else [Post(id, PleaseConfirm(r.loser.name))])
  }

  /** The number of participants still to confirm. */
  function Unconfirmed(r: Report): nat {
    (if r.winner.confirmed then 0 else 1) + (if r.loser.confirmed then 0 else 1)
  }

  /** A "!elo game" comment. A comment id already pending or settled is
      ignored; a fresh one without the two names raises, since the
      missing groups cannot be lower-cased; a game against oneself is
      answered and settled at once; any other report is stored with the
      author's own slot confirmed and a request sent to each other name. */
  function ReportGame(s: State, c: Comment, players: Option<(string, string)>): (r: Outcome)
    requires c.author.Some?
    ensures c.name in s.progress || c.name in s.done ==> r == Continue(s, [])
    ensures c.name !in s.progress && c.name !in s.done && players.None? ==> r == Abort(s, [])
    ensures r.state.elo == s.elo
    ensures c.name !in s.progress && c.name !in s.done && players.Some? && SelfPlay(players.value) ==>
      && r.Continue?
      && r.state.progress == s.progress
      && r.state.done == s.done + {c.name}
      && r.effects == [Post(c.name, SameUser)]
    ensures c.name !in s.progress && c.name !in s.done && players.Some? && !SelfPlay(players.value) ==>
      var w := Lower(players.value.0);
      var l := Lower(players.value.1);
      var who := Lower(c.author.value);
      && r.Continue?
      && r.state.done == s.done
      && r.state.progress.Keys == s.progress.Keys + {c.name}
      && (forall id :: id in s.progress ==> r.state.progress[id] == s.progress[id])
      && r.state.progress[c.name].winner.name == w
      && r.state.progress[c.name].loser.name == l
      && (r.state.progress[c.name].winner.confirmed <==> w == who)
      && (r.state.progress[c.name].loser.confirmed <==> l == who)
      && !(r.state.progress[c.name].winner.confirmed && r.state.progress[c.name].loser.confirmed)
      && |r.effects| == Unconfirmed(r.state.progress[c.name])
      && r.effects == (if w == who then [] else [Post(c.name, PleaseConfirm(w))])
                      + (if l == who then [] else [Post(c.name, PleaseConfirm(l))])
      && (forall e :: e in r.effects ==>
            || (IsRequest(e, c.name, w) && w != who)
            || (IsRequest(e, c.name, l) && l != who))
  {
    if c.name in s.progress || c.name in s.done then Continue(s, [])
    else match players
      case None => Abort(s, [])
      case Some((x, y)) =>
        var w := Lower(x);
        var l := Lower(y);
        if w == l then Continue(s.(done := s.done + {c.name}), [Post(c.name, SameUser)])
        else
          var who := Lower(c.author.value);
          var report := Report(Slot(w, w == who), Slot(l, l == who));
          Continue(s.(progress := s.progress[c.name := report]), Requests(c.name, report))
  }

  /** The slot after a confirmation by `who`: set when the names agree,
      never cleared. */
  function Confirmed(slot: Slot, who: string): (r: Slot)
    ensures r.name == slot.name
    ensures r.confirmed <==> slot.confirmed || slot.name == who
  {
    if who == slot.name then slot.(confirmed := true) else slot
  }

  /** A report whose participants have both confirmed: `set_new_elo`, the
      confirmation reply and the write of all tables. Reading back the
      two ratings raises when a stored report names the same user twice
      and that user has no rating yet; the confirmed flags stay set. */
  function Commit(cfg: Config, s: State, id: string): (r: Outcome)
    requires id in s.progress
    ensures r.state.elo == NewTable(cfg, s, id)
    ensures r.Continue? <==> Settles(s, id)
    ensures r.Continue? ==>
      && r.state.progress == s.progress - {id}
      && r.state.done == s.done + {id}
      && r.effects == Flairs(cfg, s, id) + [Post(id, Announcement(cfg, s, id)), Save(r.state)]
    ensures r.Abort? ==> r.state == s.(elo := r.state.elo) && r.effects == []
  {
    var w := s.progress[id].winner.name;
    var l := s.progress[id].loser.name;
    var elo := NewTable(cfg, s, id);
    if w in elo && l in elo then
      var s' := State(elo, s.progress - {id}, s.done + {id});
      Continue(s', Flairs(cfg, s, id) + [Post(id, Announcement(cfg, s, id)), Save(s')])
    else
      Abort(s.(elo := elo), Flairs(cfg, s, id))
  }

  /** The rating table after the game of report `id`. */
  function NewTable(cfg: Config, s: State, id: string): map<string, int>
    requires id in s.progress
  {
    SetNewElo(cfg.pow, s.progress[id].winner.name, s.progress[id].loser.name, s.elo)
  }

  /** Whether settling report `id` gets past reading back both ratings:
      always for two different users, and for a report naming one user
      twice only when that user already has a rating. */
  predicate Settles(s: State, id: string)
    requires id in s.progress
  {
    s.progress[id].winner.name != s.progress[id].loser.name || s.progress[id].winner.name in s.elo
  }

  /** The two flair updates of `set_new_elo`: none for a game against
      oneself, and none when the bot is not a moderator, since the first
      call then raises ModeratorRequired and the second is skipped. */
  function Flairs(cfg: Config, s: State, id: string): (r: seq<Effect>)
    requires id in s.progress
    ensures var w := s.progress[id].winner.name; var l := s.progress[id].loser.name;
      && (w != l && cfg.moderator ==>
            && |r| == 2 && r[0].Flair? && r[0].user == w && r[1].Flair? && r[1].user == l
            && (r[0].rating, r[1].rating) == NewRatings(cfg.pow, Seeded(s.elo, w), Seeded(s.elo, l)))
      && (w == l || !cfg.moderator ==> r == [])
  {
    var w := s.progress[id].winner.name;
    var l := s.progress[id].loser.name;
    var elo := NewTable(cfg, s, id);
    if w != l && cfg.moderator then [Flair(w, elo[w]), Flair(l, elo[l])] else []
  }

  /** The confirmation reply: both names with their new ratings. */
  function Announcement(cfg: Config, s: State, id: string): Template
    requires id in s.progress && Settles(s, id)
  {
    var w := s.progress[id].winner.name;
    var l := s.progress[id].loser.name;
    var elo := NewTable(cfg, s, id);
    Confirmation(w, elo[w], l, elo[l])
  }

  /** A "!elo confirm" comment: only an answer to a pending report counts;
      the author confirms each slot carrying their lower-cased name, and
      the report is settled as soon as both slots are confirmed. */
  function ConfirmGame(cfg: Config, s: State, c: Comment): (r: Outcome)
    requires c.author.Some?
    ensures c.parentId !in s.progress ==> r == Continue(s, [])
    ensures forall id :: id in s.progress && id != c.parentId ==>
      id in r.state.progress && r.state.progress[id] == s.progress[id]
    ensures r.state.progress.Keys <= s.progress.Keys
    ensures r.state.done - s.done <= {c.parentId}
    ensures c.parentId in s.progress && !Complete(AfterConfirm(s, c)) ==>
      && r.Continue? && r.effects == []
      && r.state.elo == s.elo && r.state.done == s.done
      && c.parentId in r.state.progress && r.state.progress[c.parentId] == AfterConfirm(s, c)
    ensures c.parentId in s.progress && Complete(AfterConfirm(s, c)) ==>
      && r.state.elo == SetNewElo(cfg.pow, s.progress[c.parentId].winner.name, s.progress[c.parentId].loser.name, s.elo)
      && (r.Continue? <==> Settles(s, c.parentId))
      && (r.Continue? ==> c.parentId !in r.state.progress && c.parentId in r.state.done && |r.effects| >= 2)
      && (r.Abort? ==> c.parentId in r.state.progress && r.effects == [])
  {
    if c.parentId !in s.progress then Continue(s, [])
    else
      var after := AfterConfirm(s, c);
      var s' := s.(progress := s.progress[c.parentId := after]);
      assert NewTable(cfg, s', c.parentId) == NewTable(cfg, s, c.parentId);
      assert Settles(s', c.parentId) == Settles(s, c.parentId);
      if Complete(after) then Commit(cfg, s', c.parentId)
      else Continue(s', [])
  }

  /** One comment of the loop. The bot's own comments and comments without
      a command are skipped. */
  function Step(cfg: Config, s: State, c: Comment): (r: Outcome)
    ensures c.author.None? ==> r == Abort(s, [])
    ensures c.author == Some(cfg.botName) ==> r == Continue(s, [])
    ensures c.author.Some? && Recognise(c.body).None? ==> r == Continue(s, [])
    ensures s.done <= r.state.done
    ensures s.elo.Keys <= r.state.elo.Keys
    ensures r.state.elo != s.elo ==>
      && c.parentId in s.progress
      && (r.Continue? ==> c.parentId !in r.state.progress && c.parentId in r.state.done)
  {
    if c.author.None? then Abort(s, [])
    else if c.author.value == cfg.botName then Continue(s, [])
    else match Recognise(c.body)
      case None => Continue(s, [])
      case Some(m) =>
        if m.action == Game then ReportGame(s, c, m.players)
        else ConfirmGame(cfg, s, c)
  }

  /** The result of a pass over a batch: the tables, the effects in order,
      and whether an exception ended the pass early. */
  datatype Pass = Pass(state: State, effects: seq<Effect>, aborted: bool)

  /** `for comment in sub.get_comments()` inside the `try` of the polling
      loop: the comments are handled in order until one raises. */
  function Batch(cfg: Config, s: State, cs: seq<Comment>): (r: Pass)
    ensures s.done <= r.state.done
    ensures s.elo.Keys <= r.state.elo.Keys
    decreases |cs|
  {
    if cs == [] then Pass(s, [], false)
    else match Step(cfg, s, cs[0])
      case Abort(s', e) => Pass(s', e, true)
      case Continue(s', e) =>
        var rest := Batch(cfg, s', cs[1..]);
        Pass(rest.state, e + rest.effects, rest.aborted)
  }

  /** The participants of a report are two different users. */
  predicate Distinct(r: Report) {
    r.winner.name != r.loser.name
  }

  /** Both participants have confirmed. */
  predicate Complete(r: Report) {
    r.winner.confirmed && r.loser.confirmed
  }

  /** The invariant the loop keeps on tables it builds itself: a pending
      report is not settled, names two different users, and still waits
      for at least one of them. */
  predicate Wf(s: State) {
    forall id :: id in s.progress ==> id !in s.done && Distinct(s.progress[id]) && !Complete(s.progress[id])
  }

  /** The tables of a first start, when no file exists yet. */
  lemma InitialWf()
    ensures Wf(State(map[], map[], {}))
  {
  }

  /** One comment keeps the invariant, and on tables that satisfy it the
      only exception left is a fresh "!elo game" without names, which
      changes nothing. */
  lemma StepPreservesWf(cfg: Config, s: State, c: Comment)
    requires Wf(s)
    ensures Wf(Step(cfg, s, c).state)
    ensures Step(cfg, s, c).Abort? ==>
      && Step(cfg, s, c) == Abort(s, [])
      && (|| c.author.None?
          || (&& Recognise(c.body).Some?
              && Recognise(c.body).value.action == Game
              && Recognise(c.body).value.players.None?))
  {
    var r := Step(cfg, s, c);
    if ByOther(cfg, c) && Recognise(c.body).Some? {
      var m := Recognise(c.body).value;
      if m.action == Game {
        if c.name !in s.progress && c.name !in s.done && m.players.Some? && !SelfPlay(m.players.value) {
          assert r.state.progress[c.name] == Report(Slot(Lower(m.players.value.0), Lower(m.players.value.0) == Lower(c.author.value)), Slot(Lower(m.players.value.1), Lower(m.players.value.1) == Lower(c.author.value)));
        }
      } else if c.parentId in s.progress {
        var after := AfterConfirm(s, c);
        var s' := s.(progress := s.progress[c.parentId := after]);
        if Complete(after) {
          assert Settles(s', c.parentId);
          assert r == Commit(cfg, s', c.parentId);
        }
      }
    }
  }

  /** A pass over any batch keeps the invariant. */
  lemma {:induction false} BatchPreservesWf(cfg: Config, s: State, cs: seq<Comment>)
    requires Wf(s)
    ensures Wf(Batch(cfg, s, cs).state)
    decreases |cs|
  {
    if cs != [] {
      StepPreservesWf(cfg, s, cs[0]);
      var o := Step(cfg, s, cs[0]);
      if o.Continue? {
        BatchPreservesWf(cfg, o.state, cs[1..]);
      }
    }
  }

  /** The report answered by `c` after `c`'s author has confirmed. */
  function AfterConfirm(s: State, c: Comment): Report
    requires c.parentId in s.progress && c.author.Some?
  {
    var before := s.progress[c.parentId];
    Report(Confirmed(before.winner, Lower(c.author.value)), Confirmed(before.loser, Lower(c.author.value)))
  }

  lemma ConfirmReplay(cfg: Config, s: State, c: Comment)
    requires c.author.Some? && Wf(s) && ConfirmGame(cfg, s, c).Continue?
    ensures ConfirmGame(cfg, ConfirmGame(cfg, s, c).state, c) == Continue(ConfirmGame(cfg, s, c).state, [])
  {
    if c.parentId in s.progress {
      var after := AfterConfirm(s, c);
      var s' := s.(progress := s.progress[c.parentId := after]);
      if Complete(after) {
        assert Settles(s', c.parentId);
        assert ConfirmGame(cfg, s, c).state.progress == s'.progress - {c.parentId};
      } else {
        var s1 := ConfirmGame(cfg, s, c).state;
        assert s1 == s';
        assert AfterConfirm(s1, c) == after;
        assert s1.progress[c.parentId := after] == s1.progress;
      }
    }
  }

  lemma GameReplay(s: State, c: Comment, players: Option<(string, string)>)
    requires c.author.Some? && ReportGame(s, c, players).Continue?
    ensures var s1 := ReportGame(s, c, players).state; ReportGame(s1, c, players) == Continue(s1, [])
  {
    var s1 := ReportGame(s, c, players).state;
    assert c.name in s1.progress || c.name in s1.done;
  }

  /** Each poll sees the same recent comments again: handling a comment a
      second time changes nothing and says nothing. */
  lemma ReplayIsSilent(cfg: Config, s: State, c: Comment)
    requires Wf(s) && Step(cfg, s, c).Continue?
    ensures Step(cfg, Step(cfg, s, c).state, c) == Continue(Step(cfg, s, c).state, [])
  {
    if ByOther(cfg, c) && Recognise(c.body).Some? {
      var m := Recognise(c.body).value;
      if m.action == Game {
        GameReplay(s, c, m.players);
      } else {
        ConfirmReplay(cfg, s, c);
      }
    }
  }

  /** A settled report is final: neither a new "!elo game" under its id
      nor a late "!elo confirm" answering it does anything. */
  lemma SettledIsFinal(cfg: Config, s: State, c: Comment, m: Match)
    requires Wf(s) && Recognise(c.body) == Some(m)
    requires m.action == Game ==> c.name in s.done
    requires m.action == Confirm ==> c.parentId in s.done
    ensures Step(cfg, s, c).state == s && Step(cfg, s, c).effects == []
    ensures c.author.Some? ==> Step(cfg, s, c) == Continue(s, [])
  {
  }

  /** Ratings move only when a confirmation completes a pending report,
      and then that report is settled and announced. */
  lemma RatingsMoveOnSettlement(cfg: Config, s: State, c: Comment)
    requires Wf(s) && Step(cfg, s, c).state.elo != s.elo
    ensures ByOther(cfg, c) && Recognise(c.body).Some? && Recognise(c.body).value.action == Confirm
    ensures c.parentId in s.progress && c.parentId !in Step(cfg, s, c).state.progress
    ensures c.parentId in Step(cfg, s, c).state.done - s.done
    ensures Step(cfg, s, c).Continue?
    ensures var r := Step(cfg, s, c);
      var w := s.progress[c.parentId].winner.name;
      var l := s.progress[c.parentId].loser.name;
      && r.state.elo == SetNewElo(cfg.pow, w, l, s.elo)
      && w in r.state.elo && l in r.state.elo
      && |r.effects| >= 2
      && r.effects[|r.effects| - 2] == Post(c.parentId, Confirmation(w, r.state.elo[w], l, r.state.elo[l]))
      && r.effects[|r.effects| - 1] == Save(r.state)
  {
    StepPreservesWf(cfg, s, c);
    var after := AfterConfirm(s, c);
    var s' := s.(progress := s.progress[c.parentId := after]);
    assert Step(cfg, s, c) == ConfirmGame(cfg, s, c);
    assert Complete(after);
    assert Step(cfg, s, c) == Commit(cfg, s', c.parentId);
  }

  /** A confirmation reply, the announcement that a report is settled. */
  predicate Announces(e: Effect) {
    e.Post? && e.template.Confirmation?
  }

  /** The ids of the reports announced by a run of effects, in order. */
  function Announced(es: seq<Effect>): (ids: seq<string>)
    ensures |ids| <= |es|
    ensures forall id :: id in ids ==> exists e :: e in es && Announces(e) && e.target == id
  {
    if es == [] then []
    else (if Announces(es[0]) then [es[0].target] else []) + Announced(es[1..])
  }

  lemma {:induction false} AnnouncedAppend(a: seq<Effect>, b: seq<Effect>)
    ensures Announced(a + b) == Announced(a) + Announced(b)
  {
    if a != [] {
      assert (a + b)[1..] == a[1..] + b;
      AnnouncedAppend(a[1..], b);
    } else {
      assert a + b == b;
    }
  }

  lemma CommitAnnounces(cfg: Config, s: State, id: string)
    requires id in s.progress && Settles(s, id)
    ensures Announced(Commit(cfg, s, id).effects) == [id]
  {
    var r := Commit(cfg, s, id);
    var f := Flairs(cfg, s, id);
    var tail := [Post(id, Announcement(cfg, s, id)), Save(r.state)];
    AnnouncedAppend(f, tail);
    assert Announced(f) == [] by {
      if f != [] {
        assert Announced(f) == Announced(f[1..]);
        assert Announced(f[1..]) == Announced([]);
      }
    }
    assert Announced(tail) == [id] by {
      assert tail[1..] == [Save(r.state)];
      assert Announced(tail[1..]) == Announced([]);
    }
  }

  /** A comment announces at most one report, one pending until then. */
  lemma StepAnnounces(cfg: Config, s: State, c: Comment)
    requires Wf(s)
    ensures var r := Step(cfg, s, c);
      || Announced(r.effects) == []
      || (&& Announced(r.effects) == [c.parentId]
          && c.parentId in s.progress && c.parentId !in s.done
          && c.parentId !in r.state.progress && c.parentId in r.state.done)
  {
    var r := Step(cfg, s, c);
    if ByOther(cfg, c) && Recognise(c.body).Some? {
      var m := Recognise(c.body).value;
      if m.action == Game {
        assert r.effects == [] || r.effects == [Post(c.name, SameUser)] || Announced(r.effects) == [] by {
          ReportAnnouncesNothing(s, c, m.players);
        }
      } else if c.parentId in s.progress {
        var after := AfterConfirm(s, c);
        var s' := s.(progress := s.progress[c.parentId := after]);
        if Complete(after) {
          assert Settles(s', c.parentId);
          CommitAnnounces(cfg, s', c.parentId);
        }
      }
    }
  }

  lemma ReportAnnouncesNothing(s: State, c: Comment, players: Option<(string, string)>)
    requires c.author.Some?
    ensures Announced(ReportGame(s, c, players).effects) == []
  {
    var es := ReportGame(s, c, players).effects;
    if es != [] {
      assert !Announces(es[0]);
      if |es| > 1 {
        assert !Announces(es[1]);
        assert es[1..][1..] == [];
      }
    }
  }

  /** Every id of `ids` is absent from `before` and present in `after`. */
  predicate NewIds(ids: seq<string>, before: set<string>, after: set<string>) {
    forall i :: 0 <= i < |ids| ==> ids[i] !in before && ids[i] in after
  }

  lemma FreshConcat(a: seq<string>, b: seq<string>, d0: set<string>, d1: set<string>, d2: set<string>)
    requires d0 <= d1 <= d2
    requires NewIds(a, d0, d1) && Unique(a)
    requires NewIds(b, d1, d2) && Unique(b)
    ensures NewIds(a + b, d0, d2) && Unique(a + b)
  {
    assert forall i :: |a| <= i < |a + b| ==> (a + b)[i] == b[i - |a|];
  }

  /** No report is announced twice in a pass, and each announced report
      was pending before the pass and is settled after it. */
  lemma {:induction false} AnnouncedOnce(cfg: Config, s: State, cs: seq<Comment>)
    requires Wf(s)
    ensures NewIds(Announced(Batch(cfg, s, cs).effects), s.done, Batch(cfg, s, cs).state.done)
    ensures Unique(Announced(Batch(cfg, s, cs).effects))
    decreases |cs|
  {
    if cs != [] {
      StepAnnounces(cfg, s, cs[0]);
      var o := Step(cfg, s, cs[0]);
      if o.Continue? {
        StepPreservesWf(cfg, s, cs[0]);
        AnnouncedOnce(cfg, o.state, cs[1..]);
        var rest := Batch(cfg, o.state, cs[1..]);
        AnnouncedAppend(o.effects, rest.effects);
        assert Batch(cfg, s, cs) == rest.(effects := o.effects + rest.effects);
        FreshConcat(Announced(o.effects), Announced(rest.effects), s.done, o.state.done, rest.state.done);
      }
    }
  }

  /** A fresh report of two different lower-case names by a third user
      stores the report unconfirmed and asks both to confirm. */
  lemma ThirdPartyReport(cfg: Config, s: State, c: Comment, m: Match, w: string, l: string)
    requires ByOther(cfg, c) && Recognise(c.body) == Some(m)
    requires m.action == Game && m.players == Some((w, l))
    requires c.name !in s.progress && c.name !in s.done
    requires Lower(w) == w && Lower(l) == l && w != l
    requires Lower(c.author.value) != w && Lower(c.author.value) != l
    ensures Step(cfg, s, c) == Continue(
      s.(progress := s.progress[c.name := Report(Slot(w, false), Slot(l, false))]),
      [Post(c.name, PleaseConfirm(w)), Post(c.name, PleaseConfirm(l))])
  {
  }

  /** The winner's confirmation of a report nobody has confirmed yet
      marks the winner's slot and nothing else. */
  lemma WinnerConfirms(cfg: Config, s: State, c: Comment, m: Match, w: string, l: string)
    requires ByOther(cfg, c) && Recognise(c.body) == Some(m) && m.action == Confirm
    requires c.parentId in s.progress && s.progress[c.parentId] == Report(Slot(w, false), Slot(l, false))
    requires Lower(c.author.value) == w && w != l
    ensures Step(cfg, s, c) == Continue(
      s.(progress := s.progress[c.parentId := Report(Slot(w, true), Slot(l, false))]), [])
  {
    assert AfterConfirm(s, c) == Report(Slot(w, true), Slot(l, false));
  }

  /** The loser's confirmation after the winner's settles the report: new
      ratings, flair for both when the bot moderates, the confirmation
      reply and a write of all tables. */
  lemma LoserConfirms(cfg: Config, s: State, c: Comment, m: Match, w: string, l: string)
    requires ByOther(cfg, c) && Recognise(c.body) == Some(m) && m.action == Confirm
    requires c.parentId in s.progress && s.progress[c.parentId] == Report(Slot(w, true), Slot(l, false))
    requires Lower(c.author.value) == l && w != l && cfg.moderator
    ensures
      var elo := SetNewElo(cfg.pow, w, l, s.elo);
      var settled := State(elo, s.progress - {c.parentId}, s.done + {c.parentId});
      Step(cfg, s, c) == Continue(settled,
        [Flair(w, elo[w]), Flair(l, elo[l]), Post(c.parentId, Confirmation(w, elo[w], l, elo[l])), Save(settled)])
  {
    var after := Report(Slot(w, true), Slot(l, true));
    assert AfterConfirm(s, c) == after;
    var s' := s.(progress := s.progress[c.parentId := after]);
    assert Step(cfg, s, c) == Commit(cfg, s', c.parentId);
    assert s'.progress - {c.parentId} == s.progress - {c.parentId};
  }

  /** A comment that does not raise is followed by the rest of the batch. */
  lemma BatchCons(cfg: Config, s: State, c: Comment, cs: seq<Comment>, s1: State, e1: seq<Effect>)
    requires Step(cfg, s, c) == Continue(s1, e1)
    ensures Batch(cfg, s, [c] + cs) == Pass(Batch(cfg, s1, cs).state, e1 + Batch(cfg, s1, cs).effects, Batch(cfg, s1, cs).aborted)
  {
    assert ([c] + cs)[1..] == cs;
  }

  /** An exception ends the pass: the comments after the one that raised
      are not looked at, and the tables stay as that comment left them. */
  lemma BatchAbort(cfg: Config, s: State, c: Comment, cs: seq<Comment>, s1: State, e1: seq<Effect>)
    requires Step(cfg, s, c) == Abort(s1, e1)
    ensures Batch(cfg, s, [c] + cs) == Pass(s1, e1, true)
  {
    assert ([c] + cs)[0] == c;
  }

  /** A deleted comment, or one of a deleted account, has no author; reading
      its author's name raises, so the pass ends there with the tables as
      they were. */
  lemma DeletedCommentEndsPass(cfg: Config, s: State, c: Comment, cs: seq<Comment>)
    requires c.author.None?
    ensures Batch(cfg, s, [c] + cs) == Pass(s, [], true)
  {
    BatchAbort(cfg, s, c, cs, s, []);
  }

  /** One poll of the loop: the pass over the batch inside the `try`, then
      `write_all_config` whether the pass ended normally or by an
      exception. */
  function Poll(cfg: Config, s: State, cs: seq<Comment>): (r: Pass)
    ensures |r.effects| >= 1 && r.effects[|r.effects| - 1] == Save(r.state)
    ensures s.done <= r.state.done && s.elo.Keys <= r.state.elo.Keys
  {
    var b := Batch(cfg, s, cs);
    Pass(b.state, b.effects + [Save(b.state)], b.aborted)
  }

  /** A report id the tables know of: pending or settled. */
  predicate Known(s: State, id: string) {
    id in s.progress || id in s.done
  }

  /** A known report id stays known: a report leaves `progress` only to
      enter `done`. */
  lemma StepKeepsKnown(cfg: Config, s: State, c: Comment, id: string)
    requires Known(s, id)
    ensures Known(Step(cfg, s, c).state, id)
  {
    if ByOther(cfg, c) && Recognise(c.body).Some? && Recognise(c.body).value.action == Confirm {
      assert Step(cfg, s, c) == ConfirmGame(cfg, s, c);
      if c.parentId in s.progress && Complete(AfterConfirm(s, c)) && id == c.parentId {
        assert ConfirmGame(cfg, s, c).Continue? || ConfirmGame(cfg, s, c).Abort?;
      }
    }
  }

  lemma {:induction false} BatchKeepsKnown(cfg: Config, s: State, cs: seq<Comment>, id: string)
    requires Known(s, id)
    ensures Known(Batch(cfg, s, cs).state, id)
    decreases |cs|
  {
    if cs != [] {
      StepKeepsKnown(cfg, s, cs[0], id);
      var o := Step(cfg, s, cs[0]);
      if o.Continue? {
        BatchKeepsKnown(cfg, o.state, cs[1..], id);
      }
    }
  }

  /** A "!elo game" comment the loop got past is known from then on. */
  lemma ReportIsKnown(cfg: Config, s: State, c: Comment, m: Match)
    requires ByOther(cfg, c) && Recognise(c.body) == Some(m) && m.action == Game
    requires Step(cfg, s, c).Continue?
    ensures Known(Step(cfg, s, c).state, c.name)
  {
    assert Step(cfg, s, c) == ReportGame(s, c, m.players);
  }

  /** A report handled in a poll is in the tables saved at the end of that
      poll, even when a later comment of the batch raised. */
  lemma PollSavesReport(cfg: Config, s: State, c: Comment, m: Match, cs: seq<Comment>)
    requires ByOther(cfg, c) && Recognise(c.body) == Some(m) && m.action == Game
    requires Step(cfg, s, c).Continue?
    ensures var r := Poll(cfg, s, [c] + cs);
      r.effects[|r.effects| - 1] == Save(r.state) && Known(r.state, c.name)
  {
    var o := Step(cfg, s, c);
    ReportIsKnown(cfg, s, c, m);
    BatchCons(cfg, s, c, cs, o.state, o.effects);
    BatchKeepsKnown(cfg, o.state, cs, c.name);
  }

  /** The tables after a run of polls, each starting from the tables the
      one before left, whether it ended normally or by an exception. */
  function Polls(cfg: Config, s: State, bs: seq<seq<Comment>>): (r: State)
    ensures s.done <= r.done && s.elo.Keys <= r.elo.Keys
    decreases |bs|
  {
    if bs == [] then s else Polls(cfg, Poll(cfg, s, bs[0]).state, bs[1..])
  }

  lemma {:induction false} PollsKeepKnown(cfg: Config, s: State, bs: seq<seq<Comment>>, id: string)
    requires Known(s, id)
    ensures Known(Polls(cfg, s, bs), id)
    decreases |bs|
  {
    if bs != [] {
      BatchKeepsKnown(cfg, s, bs[0], id);
      PollsKeepKnown(cfg, Poll(cfg, s, bs[0]).state, bs[1..], id);
    }
  }

  /** A "!elo game" comment the loop got past, seen again later, changes
      nothing and says nothing. In between come the rest of its own batch
      and any later polls (`bs`, aborted ones included), then the comments
      of the current batch before it (`cs`). */
  lemma ReportStaysSilent(cfg: Config, s: State, c: Comment, m: Match, bs: seq<seq<Comment>>, cs: seq<Comment>)
    requires ByOther(cfg, c) && Recognise(c.body) == Some(m) && m.action == Game
    requires Step(cfg, s, c).Continue?
    ensures var t := Batch(cfg, Polls(cfg, Step(cfg, s, c).state, bs), cs).state; Step(cfg, t, c) == Continue(t, [])
  {
    ReportIsKnown(cfg, s, c, m);
    PollsKeepKnown(cfg, Step(cfg, s, c).state, bs, c.name);
    BatchKeepsKnown(cfg, Polls(cfg, Step(cfg, s, c).state, bs), cs, c.name);
  }

  /* An example exchange: carol reports that alice beat bob; alice
     confirms, then Bob (with a capital letter) confirms. Each comment
     leaves the tables the next one starts from, and both players get
     their first rating. */

  lemma ExampleReport(cfg: Config)
    requires cfg.botName == "elobot"
    ensures
      var s1 := State(map[], map["t1_a" := Report(Slot("alice", false), Slot("bob", false))], {});
      Step(cfg, State(map[], map[], {}), Comment("t1_a", Some("carol"), "t3_p", "!elo game alice bob"))
      == Continue(s1, [Post("t1_a", PleaseConfirm("alice")), Post("t1_a", PleaseConfirm("bob"))])
  {
    var s0 := State(map[], map[], {});
    var c := Comment("t1_a", Some("carol"), "t3_p", "!elo game alice bob");
    ReportBody();
    assert Step(cfg, s0, c) == ReportGame(s0, c, Some(("alice", "bob")));
    ExampleReportGame(s0, c);
  }

  lemma ExampleReportGame(s0: State, c: Comment)
    requires s0 == State(map[], map[], {}) && c.name == "t1_a" && c.author == Some("carol")
    ensures ReportGame(s0, c, Some(("alice", "bob")))
      == Continue(State(map[], map["t1_a" := Report(Slot("alice", false), Slot("bob", false))], {}),
                  [Post("t1_a", PleaseConfirm("alice")), Post("t1_a", PleaseConfirm("bob"))])
  {
    LowerOfLowerCase("alice");
    LowerOfLowerCase("bob");
    LowerOfLowerCase("carol");
    var pending := Report(Slot("alice", false), Slot("bob", false));
    assert Requests("t1_a", pending) == [Post("t1_a", PleaseConfirm("alice")), Post("t1_a", PleaseConfirm("bob"))];
  }

  lemma ExampleFirstConfirm(cfg: Config)
    requires cfg.botName == "elobot"
    ensures
      var s1 := State(map[], map["t1_a" := Report(Slot("alice", false), Slot("bob", false))], {});
      var s2 := State(map[], map["t1_a" := Report(Slot("alice", true), Slot("bob", false))], {});
      Step(cfg, s1, Comment("t1_b", Some("alice"), "t1_a", "!elo confirm")) == Continue(s2, [])
  {
    var s1 := State(map[], map["t1_a" := Report(Slot("alice", false), Slot("bob", false))], {});
    var c := Comment("t1_b", Some("alice"), "t1_a", "!elo confirm");
    assert Recognise(c.body) == Some(Match(0, Confirm, None)) by {
      ConfirmCommand();
    }
    assert Lower(c.author.value) == "alice" by {
      LowerOfLowerCase("alice");
    }
    WinnerConfirms(cfg, s1, c, Match(0, Confirm, None), "alice", "bob");
  }

  lemma ExampleSecondConfirm(cfg: Config)
    requires cfg.botName == "elobot" && cfg.moderator
    ensures
      var s2 := State(map[], map["t1_a" := Report(Slot("alice", true), Slot("bob", false))], {});
      var settled := State(map["alice" := 1010, "bob" := 990], map[], {"t1_a"});
      Step(cfg, s2, Comment("t1_c", Some("Bob"), "t1_a", "!elo confirm")) == Continue(settled,
        [Flair("alice", 1010), Flair("bob", 990), Post("t1_a", Confirmation("alice", 1010, "bob", 990)), Save(settled)])
  {
    var s2 := State(map[], map["t1_a" := Report(Slot("alice", true), Slot("bob", false))], {});
    var c := Comment("t1_c", Some("Bob"), "t1_a", "!elo confirm");
    assert Recognise(c.body) == Some(Match(0, Confirm, None)) by {
      ConfirmCommand();
    }
    assert Lower(c.author.value) == "bob" by {
      LowerBob();
    }
    assert SetNewElo(cfg.pow, "alice", "bob", map[]) == map["alice" := 1010, "bob" := 990] by {
      EvenSettlement(cfg.pow);
    }
    assert s2.progress - {"t1_a"} == map[];
    LoserConfirms(cfg, s2, c, Match(0, Confirm, None), "alice", "bob");
  }

  lemma LowerBob()
    ensures Lower("Bob") == "bob"
  {
  }

  /** Two new players at the default rating: 1010 for the winner, 990 for
      the loser. */
  lemma EvenSettlement(pow: Power)
    ensures SetNewElo(pow, "alice", "bob", map[]) == map["alice" := 1010, "bob" := 990]
  {
    EvenGame(pow);
  }

  lemma ReportBody()
    ensures Recognise("!elo game alice bob") == Some(Match(0, Game, Some(("alice", "bob"))))
  {
    ReportCommand("alice", "bob");
    ReportSpelling();
  }

  lemma ReportSpelling()
    ensures CallString + " " + Keyword(Game) + " " + "alice" + " " + "bob" == "!elo game alice bob"
  {
  }
}
