# ELOBot and RSSBot, modelled in Dafny

This project models the logic of two small Reddit bots.

- **ELOBot** reads the comments of a subreddit and looks for the
  commands `!elo game <winner> <loser>` and `!elo confirm`. It keeps a
  pending report for each game until both named players have confirmed
  it in a reply. It then moves both players' Elo ratings, sets their
  flair and announces the result.
- **RSSBot** submits new feed articles to a subreddit. It remembers the
  ids of the articles it has already handled in `done.txt`.

Both bots keep their tables in line-oriented text files. The model
covers four parts of the bots:

- the command recogniser (`BOTCALLRE` and its `search`);
- the per-comment state machine of the Elo bot's polling loop;
- the rating update (`get_new_elo`, `set_new_elo`);
- the three text stores (`elo.txt`, `progress.txt`, `done.txt`) and the
  RSS bot's article loop.

The project has these modules:

- `Wrappers` (`wrappers.dfy`): `Option` and `Result`.
- `Text` (`text.dfy`): Python's string operations as the bots use them.
  These are `lower()` on ASCII letters, `strip()`, `split(sep)`, and
  the lines `for line in f` yields after universal-newline translation.
- `Numerals` (`numerals.dfy`): `str(n)` for integers, and `int(s)` on
  decimal text with an optional sign, digit-group underscores and
  surrounding whitespace.
- `Command` (`command.dfy`): the regular expression
  `!elo (game|confirm)(?: (?:/u/)?(\S*) (?:/u/)?(\S*))?`, searched
  leftmost in the lower-cased comment body.
- `Rating` (`rating.dfy`): the clamped Elo update and its seeding.
- `Tables` (`tables.dfy`): the rating table, the pending reports and the
  done set.
- `Stores` (`stores.dfy`): writers from tables to file text, and readers
  from file text back to tables, with their errors.
- `EloBot` (`elobot.dfy`): one comment (`Step`) and one batch of
  comments (`Batch`). The bot's calls to Reddit become a list of effects
  (`Post`, `Flair`, `Save`).
- `RssBot` (`rssbot.dfy`): the article loop of one pass, and the done
  file it writes.

Outside effects are parameters of the model:

- the bot's account name and whether it moderates the subreddit
  (`EloBot.Config`);
- the function `x ↦ 10^x` (`Rating.Power`);
- Reddit's answer to a submission (`submit` in `RssBot`);
- whether a file could be opened (the readers take `Option<string>`);
- the iteration order of a Python dict or set (the writers take a
  sequence that enumerates the keys).

Behaviour of the source worth knowing:

- A fresh `!elo game` without two names does not count as "no match".
  `match.group(2).lower()` raises on `None`, and the exception ends the
  pass over the batch (`EloBot.ReportGame` returns `Abort`).
- All three tables are written when a report settles, and again at the
  end of every poll, whether the pass ended normally or by an exception
  (`EloBot.Poll`). A new pending report or a rejected self-play is
  therefore saved at the end of the poll that saw it. Nothing makes the
  writes atomic.
- A report that names one user twice is settled (rejected) on creation,
  with no rating change. A pending report can never start with both
  slots confirmed.
- A deleted comment, or one whose account was deleted, has no author.
  `comment.author.name` then raises, and the exception ends the pass
  (`EloBot.Step` returns `Abort`). The comments listed after it are not
  handled in that poll (`EloBot.DeletedCommentEndsPass`).
- Only `ModeratorRequired` from a flair call is swallowed. When it is
  raised, the first flair call fails and the second is never made.

## Model

| member | source | states |
|---|---|---|
| Command.RecogniseMeaning | ELOBot/ELOBot.py:196 | In the lower-cased body there is no match exactly when no call starts anywhere. Otherwise the match starts at the leftmost call; its action is the keyword found there; its participants are what the optional tail after the call spells. |
| Command.ParticipantsMeaning | ELOBot/ELOBot.py:94 | The optional tail matches exactly when a space, a token, a space and a second token follow the call. The returned pair is spelled by the tail, with each optional `/u/` prefix dropped. |
| Command.SearchMeaning | ELOBot/ELOBot.py:94 | Searching from position i finds nothing iff no call starts at or after i. A match is the first call at or after i. |
| Command.PlayersHaveNoSpace | ELOBot/ELOBot.py:94 | The captured names (`\S*`) never contain whitespace, so a stored report always fits a tab-separated line. |
| Command.ReportCommand | ELOBot/ELOBot.py:94 | `!elo game x y`, for plain lower-case names x and y, is recognised as a game report at position 0 with participants (x, y). |
| Command.ConfirmCommand | ELOBot/ELOBot.py:94 | `!elo confirm` is recognised as a confirmation without participants. |
| Command.GamerIsGame | ELOBot/ELOBot.py:94 | The keyword is not anchored at a word end: `!elo gamer` matches as a game report without participants. |
| Command.MentionsAreStripped | ELOBot/ELOBot.py:196 | The body is lower-cased before the search, and a `/u/` prefix is not part of a name: `!ELO game /u/Al Bo` reports ("al", "bo"). |
| Command.FirstCommandWins | ELOBot/ELOBot.py:196 | For any text before the call that holds no `!` and any text after it, the match is that call, at the length of the text before it, with the participants the text after it spells. |
| Command.FirstCommandAlone | ELOBot/ELOBot.py:196 | Such a first call that is not followed by a space has no participants. |
| Rating.Clamp | ELOBot/ELOBot.py:151-153 | The difference is kept within ±400: unchanged inside the range, set to the nearer bound outside it. |
| Rating.Expected | ELOBot/ELOBot.py:154-155 | Every expected score lies strictly between 0 and 1. |
| Rating.ExpectedComplement | ELOBot/ELOBot.py:154-155 | The two expected scores of a game add up to 1, and an even game expects 1/2 each. |
| Rating.Truncate | ELOBot/ELOBot.py:158 | `int()` on a real truncates toward zero: it rounds down for non-negative values and up for negative ones. |
| Rating.NewRatings | ELOBot/ELOBot.py:150-158 | The winner gains between 0 and 20 points and the loser loses between 0 and 20, for every power function. |
| Rating.ExactUpdateIsZeroSum | ELOBot/ELOBot.py:154-157 | Before truncation, the winner's gain equals the loser's loss. |
| Rating.EvenGame | ELOBot/ELOBot.py:150-158 | Two players rated 1000 come out at 1010 and 990. |
| Rating.ClampedDifference | ELOBot/ELOBot.py:151-153 | A rating gap beyond 400 moves both players exactly as a gap of 400 would. |
| Rating.SetNewElo | ELOBot/ELOBot.py:160-167 | A game against oneself leaves the table alone. Otherwise only the two players change; a new player is seeded at 1000; both results are `get_new_elo` of the seeded ratings. |
| Stores.ParseEloLines | ELOBot/ELOBot.py:100-102 | Every name read is stripped, and names read earlier stay in the table. |
| Stores.ReadElo | ELOBot/ELOBot.py:96-105 | A missing file gives an empty table; every name read is stripped. |
| Stores.EloRoundTrip | ELOBot/ELOBot.py:96-110 | Reading back what `write_config_elo` wrote gives the same rating table, in any key order, for names without tabs, line breaks or surrounding whitespace. |
| Stores.ReadProgress | ELOBot/ELOBot.py:112-121 | A missing file gives an empty table of pending reports. |
| Stores.ProgressRoundTrip | ELOBot/ELOBot.py:112-126 | Reading back what `write_config_progress` wrote gives the same reports, names and flags alike: "True" and "False" read back case-insensitively. |
| Stores.ParseDoneLines | ELOBot/ELOBot.py:132-134 | Each id read is stripped and not empty; blank lines add nothing. |
| Stores.ReadDoneSet | ELOBot/ELOBot.py:128-137 | A missing file gives the empty set, and the empty id is never read. |
| Stores.DoneSetRoundTrip | ELOBot/ELOBot.py:128-143 | Reading back the done file gives the written set without the empty id, which the writer skips. |
| Stores.ReadDone | RSSBot/RSSBot.py:57-66 | A missing file gives an empty list; every id read is stripped and not empty. |
| Stores.DoneRoundTrip | RSSBot/RSSBot.py:57-72 | Reading back the RSS bot's done file gives the written list, in order, without its empty ids. |
| Stores.NonEmpty | RSSBot/RSSBot.py:71-72 | The ids kept are exactly the non-empty ones. |
| Numerals.IntRoundTrip | ELOBot/ELOBot.py:102-110 | `int()` of `str(n)` followed by a line break (any trailing whitespace) is n, for negative n too. |
| Numerals.SignedParse | ELOBot/ELOBot.py:102 | A leading minus sign negates the number the rest of the text spells, and a leading plus sign changes nothing. A sign on its own, or followed by a second sign, is a ValueError. |
| Numerals.UnderscoresIgnored | ELOBot/ELOBot.py:102 | Digit groups joined by single underscores are accepted and read as the digits without the underscores. |
| Numerals.ParseSignedRejects | ELOBot/ELOBot.py:102 | `int()` rejects `-`, `--1`, `-_1`, `1__0` and `1_`. |
| Text.Newlines | ELOBot/ELOBot.py:100 | Universal-newline translation leaves no carriage return in the text. |
| Text.Lines | ELOBot/ELOBot.py:100 | Iterating over a file gives non-empty lines; each line but the last ends with its only line break. |
| Text.LinesConcat | ELOBot/ELOBot.py:100 | The lines of a file, put back together, are the whole text: iteration loses and adds nothing. |
| Stores.ParseProgressLines | ELOBot/ELOBot.py:116-118 | The ids of reports read from earlier lines of the progress file stay in the table. |
| Text.Split | ELOBot/ELOBot.py:101 | `split` returns at least one piece, none holds the separator, and the pieces joined by the separator give the input back. |
| Text.SplitJoin | ELOBot/ELOBot.py:101 | Separator-free pieces joined and split again come back unchanged. |
| Text.Strip | ELOBot/ELOBot.py:102 | `strip` leaves no whitespace at either end and changes nothing without whitespace. |
| Text.StripMeaning | ELOBot/ELOBot.py:102 | `strip` removes whitespace at the two ends and nothing else: the result is the slice of the input between a run of leading and a run of trailing whitespace. |
| Text.StripTrailing | ELOBot/ELOBot.py:102 | Stripping a stripped string plus trailing whitespace gives it back. |
| Text.LowerIdempotent | ELOBot/ELOBot.py:196-208 | `lower()` is idempotent on any string: lower-casing twice gives what lower-casing once gives. |
| EloBot.ReportGame | ELOBot/ELOBot.py:199-213 | A known id is ignored. A fresh one without names raises. A self-play is answered and marked done. Otherwise a report is stored with the author's slot confirmed, the others untouched. The winner is asked to confirm, then the loser, each once and only when the author is not that player. |
| EloBot.Confirmed | ELOBot/ELOBot.py:218-220 | A slot becomes confirmed exactly when it already was or the confirming author carries its name; the name never changes. |
| EloBot.Commit | ELOBot/ELOBot.py:223-233 | Settling succeeds exactly when both ratings can be read back. On success the report moves from pending to done, and the effects are the flairs, the announcement and one save, in that order. The flairs are the winner's then the loser's new rating when the bot moderates and the players differ, and none otherwise. On failure the updated ratings stay and the pass ends. |
| EloBot.ConfirmGame | ELOBot/ELOBot.py:216-233 | A confirmation of an unknown report is ignored. Other reports are untouched, no report is added, and only the answered one can become done. While the report still waits, it is stored with the new confirmation, with no effect and no rating change. Once complete, the ratings become `set_new_elo` of its two players, and the report leaves pending for done exactly when both ratings can be read back. |
| EloBot.Step | ELOBot/ELOBot.py:193-233 | A comment without an author raises and ends the pass with the tables unchanged. The bot's own comments and comments without a call change nothing. The done set and the rated names only grow. The ratings change only when a pending report is settled. |
| EloBot.Batch | ELOBot/ELOBot.py:189-238 | Over a batch the done set and the rated names only grow. |
| EloBot.BatchAbort | ELOBot/ELOBot.py:238 | A comment that raises ends the pass: the rest of the batch is not looked at, and the tables stay as that comment left them. |
| EloBot.DeletedCommentEndsPass | ELOBot/ELOBot.py:193-238 | A comment without an author ends the pass: the tables stay as they were, nothing is said, and the comments after it are not looked at. |
| EloBot.Poll | ELOBot/ELOBot.py:189-241 | A poll ends with one save of the tables the pass left, whether the pass ended normally or not; the done set and the rated names only grow. |
| EloBot.Flairs | ELOBot/ELOBot.py:160-172 | A moderating bot sets the winner's flair, then the loser's, to the ratings `get_new_elo` gives for their seeded ratings. There is no flair for a game against oneself or when the bot does not moderate. |
| EloBot.Polls | ELOBot/ELOBot.py:188-243 | Over any number of polls, each starting from the tables the one before left, the done set and the rated names only grow. |
| EloBot.PollsKeepKnown | ELOBot/ELOBot.py:188-243 | A report id pending or settled stays pending or settled over any number of polls, aborted ones included. |
| EloBot.StepKeepsKnown | ELOBot/ELOBot.py:200-227 | A report id pending or settled stays pending or settled after any comment: a report leaves pending only to enter done. |
| EloBot.BatchKeepsKnown | ELOBot/ELOBot.py:193-238 | The same over a whole pass. |
| EloBot.PollSavesReport | ELOBot/ELOBot.py:199-241 | A report the loop got past is pending or settled in the tables saved at the end of that poll, even when a later comment of the batch raised. |
| EloBot.StepPreservesWf | ELOBot/ELOBot.py:193-233 | Every pending report is not done, names two users and still waits for one; a comment keeps this. The only exceptions left are a comment without an author and a fresh game report without names, and neither changes anything. |
| EloBot.BatchPreservesWf | ELOBot/ELOBot.py:189-238 | A whole batch keeps the invariant. |
| EloBot.ReplayIsSilent | ELOBot/ELOBot.py:193-233 | A comment re-delivered immediately changes nothing and produces no effect. |
| EloBot.ReportStaysSilent | ELOBot/ELOBot.py:188-243 | A "!elo game" comment the loop got past changes nothing and produces no effect when seen again. In between may come the rest of its batch, any number of later polls, aborted ones included, and the comments before it in the current batch. |
| EloBot.SettledIsFinal | ELOBot/ELOBot.py:194-217 | A report in the done set is immune to a new report under its id and to any further confirmation: the tables stay and nothing is said. A comment without an author still raises. |
| EloBot.RatingsMoveOnSettlement | ELOBot/ELOBot.py:216-233 | Ratings change only for a confirmation that completes a pending report. That report then leaves pending, enters done, and is announced with the new ratings. |
| EloBot.StepAnnounces | ELOBot/ELOBot.py:223-233 | A comment announces at most one report, one that was pending and is done afterwards. |
| EloBot.AnnouncedOnce | ELOBot/ELOBot.py:189-238 | In a batch no report is announced twice, and each announced report was not done before and is done after. |
| EloBot.ThirdPartyReport | ELOBot/ELOBot.py:208-213 | A report by a third user stores both slots unconfirmed and asks the winner, then the loser, to confirm. |
| EloBot.WinnerConfirms | ELOBot/ELOBot.py:216-221 | The winner's confirmation of an unconfirmed report sets only the winner's slot, with no effect. |
| EloBot.LoserConfirms | ELOBot/ELOBot.py:216-233 | The loser's confirmation after the winner's settles the report: new ratings, two flairs, the announcement and one save. |
| EloBot.ExampleReport | ELOBot/ELOBot.py:199-213 | "!elo game alice bob" from carol on empty tables stores a report with both slots open and sends two requests. |
| EloBot.ExampleFirstConfirm | ELOBot/ELOBot.py:216-221 | Alice's "!elo confirm" under that report confirms her slot only. |
| EloBot.ExampleSecondConfirm | ELOBot/ELOBot.py:216-233 | Bob's confirmation then rates alice 1010 and bob 990, moves the report to done and announces it. |
| RssBot.ProcessArticles | RSSBot/RSSBot.py:95-105 | The articles submitted are, in order, the looked-at articles whose id was not done before or earlier in the pass. Their ids are added to `done` before the submission. A description comment is posted only after a successful submission. The pass ends at the first failure other than AlreadySubmitted. |
| RssBot.SelectSound | RSSBot/RSSBot.py:95-97 | The selected articles come from the input and were not done; their ids are distinct; every input article's id is either done or selected. The converse is `RssBot.SelectNext`. |
| RssBot.SelectNext | RSSBot/RSSBot.py:95-97 | An article is selected exactly when its id is new to `done` and to every article before it in the batch, whether or not those were selected. |
| RssBot.CommentFor | RSSBot/RSSBot.py:100-101 | A comment is posted exactly when the submission succeeded, descriptions are on and the article has one; it is the description after the fixed prefix. |
| RssBot.DescriptionText | RSSBot/RSSBot.py:29 | The comment is the description after the prefix "Link description:" and a blank line. |
| RssBot.Pass | RSSBot/RSSBot.py:95-113 | The file saved after a pass, whether the pass ended normally or not, is the done list after the loop. That list keeps every old id and holds the id of every article submitted in the pass, none of which was done before. |
| RssBot.NoResubmission | RSSBot/RSSBot.py:57-113 | Across a restart, no article submitted in an earlier pass is submitted again, unless its id is empty. Stated for ids without line breaks or surrounding whitespace: the reader strips ids while line 96 compares them unstripped, so the source does submit such an id again after a restart. |

Some members model a source function and are covered by the rows above
rather than by a row of their own:

- `Stores.WriteElo`, `Stores.WriteProgress` and `Stores.WriteDoneSet` are
  `write_config_elo`, `write_config_progress` and `write_config_done`
  (ELOBot/ELOBot.py:107-143). `Stores.DoneText` is the RSS bot's
  `write_config_done` (RSSBot/RSSBot.py:68-72). The round trips
  `EloRoundTrip`, `ProgressRoundTrip`, `DoneSetRoundTrip` and
  `DoneRoundTrip` state what each one writes.
- `Numerals.IntToString` is `str()` on an integer, and `Numerals.ParseInt`
  is `int()` on a line (ELOBot/ELOBot.py:102, 110). `IntRoundTrip` and
  `SignedParse` state them.
- `Command.Recognise` is `BOTCALLRE.search(comment.body.lower())`
  (ELOBot/ELOBot.py:196). `RecogniseMeaning` states it.
- `RssBot.Select` is the filter `if article[3] not in done` of
  RSSBot/RSSBot.py:96 within one pass. `SelectSound` states it.

## Left out

- The Reddit client, OAuth refresh, `get_comments`, `get_me`, `get_info`, `reply`, `set_flair`, `submit` and `add_comment` are outside calls. Replies and flairs become effects, and a submission's answer is a parameter. Their network failures (other than a failed submission and `ModeratorRequired`) are not modelled.
- The endless loop around the polls, `sleep`, logging and `KeyboardInterrupt` are left out. `EloBot.Poll` models one poll: `EloBot.Batch` is the pass over the comments inside the `try`, an abort stands for the caught exception, and the save after it follows.
- `import bot` can override the constants at start-up. The model fixes the default constants: `!elo`, `game`, `confirm`, 1000, 400 and 20.
- The floating-point arithmetic of `10**(diff/400)` and `1/(1+…)` is left out. `Rating.Power` is any positive function with `f(0) = 1` and `f(x)·f(-x) = 1`, and the rating lemmas hold for every such function. The model does not claim bit-exact agreement with IEEE doubles, except that `int()` truncates.
- Rating.NewRatings: states bounds and the zero-sum exact update, not the exact rounded values for every input, because those depend on floating point.
- `lower()` is modelled on ASCII letters only, and whitespace as Python's `str.isspace` on the characters the files can hold. Unicode case mapping and `int()` on non-ASCII digits are left out.
- File encodings, `open` failures other than a missing file, and write failures are left out. A reader takes `None` for a file it could not open.
- The final `write_all_config` on `KeyboardInterrupt` (line 245) is left out with the interrupt itself.
- `write_all_config` writes three files. The model records one `Save` of all three tables as one effect and states the per-file formats through the store round trips.
- The iteration order of Python dicts and sets is a parameter (`Enumerates`), so the stores are stated for every order.
- `RSSReader.get_new_articles` and `read_config_sources` (feed parsing and the sources file) are not part of this model. The articles of a pass are an input sequence.
- ReplayIsSilent: covers a comment re-delivered at once. A "!elo game" seen again later is covered by `ReportStaysSilent`. A "!elo confirm" seen again later is not silent in general: when it was first seen before the report it answers existed (the comments arrive newest first), the source ignored it then and applies it on the next poll, and the model does the same.
- NoResubmission: stated only for ids without line breaks or surrounding whitespace, because the source does resubmit other ids after a restart.
- Stores.EloRoundTrip: stated only for names without tabs, line breaks or surrounding whitespace. Other names do not survive the file in the source either.
- Stores.ProgressRoundTrip: stated only for ids and names without tabs or line breaks, and ids that are not empty and do not start with whitespace. Other values do not survive the file in the source either.
- Stores.DoneRoundTrip: stated only for ids without line breaks or surrounding whitespace. Other ids do not survive the file in the source either.
- Stores.DoneSetRoundTrip: stated only for ids without line breaks or surrounding whitespace, for the same reason.
- The end-to-end exchange of three comments is proved one comment at a time (`ExampleReport`, `ExampleFirstConfirm`, `ExampleSecondConfirm`), each starting from the tables the previous one leaves, not as one `Batch` call.
