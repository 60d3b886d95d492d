/** The RSS bot's at-most-once submission filter: one pass of `run_bot`
    over the new articles, with `done`, the list of article ids already
    handled, kept in `done.txt` between runs. */
module RssBot {
  import opened Wrappers
  import opened Text
  import opened Stores

  /** An article as the feed reader delivers it: title, link, optional
      description, and the id the bot deduplicates on. */
  datatype Article = Article(title: string, url: string, description: Option<string>, id: string)

  /** How `sub.submit` ends: the link is posted, Reddit answers that it
      was already submitted, or any other exception. */
  datatype Outcome = Submitted | AlreadySubmitted | Failed

  /** RESUBMIT_ANYWAYS and POST_DESCRIPTION. */
  datatype RssConfig = RssConfig(resubmitAnyways: bool, postDescription: bool)

  /** One call of `sub.submit`, how it ended, and the description comment
      posted under the new submission, if any. */
  datatype Submission = Submission(article: Article, resubmit: bool, outcome: Outcome, comment: Option<string>)

  /** DESCRIPTION_FORMAT with the description filled in. */
  const DescriptionFormat: string := "Link description:\n\n"

  function DescriptionText(description: string): (text: string)
    ensures |text| == |DescriptionFormat| + |description|
    ensures text[..|DescriptionFormat|] == DescriptionFormat
    ensures text[|DescriptionFormat|..] == description
  {
    DescriptionFormat + description
  }

  function Ids(articles: seq<Article>): (ids: seq<string>)
    ensures |ids| == |articles|
    ensures forall i :: 0 <= i < |articles| ==> ids[i] == articles[i].id
  {
    seq(|articles|, i requires 0 <= i < |articles| => articles[i].id)
  }

  function Posted(posts: seq<Submission>): (articles: seq<Article>)
    ensures |articles| == |posts|
    ensures forall i :: 0 <= i < |posts| ==> articles[i] == posts[i].article
  {
    seq(|posts|, i requires 0 <= i < |posts| => posts[i].article)
  }

  /** The articles a pass submits, in order: each one whose id is neither
      in `done` nor the id of an article submitted before it. */
  function Select(done: seq<string>, articles: seq<Article>): seq<Article>
    decreases |articles|
  {
    if articles == [] then []
    else
      var before := Select(done, articles[..|articles| - 1]);
      var last := articles[|articles| - 1];
      if last.id in done + Ids(before) then before else before + [last]
  }

  /** The selected articles are articles of the batch, never one already
      done, never two with the same id; and every article of the batch
      ends up done. */
  lemma {:induction false} SelectSound(done: seq<string>, articles: seq<Article>)
    ensures forall a :: a in Select(done, articles) ==> a in articles && a.id !in done
    ensures Unique(Ids(Select(done, articles)))
    ensures forall a :: a in articles ==> a.id in done + Ids(Select(done, articles))
    decreases |articles|
  {
    if articles != [] {
      var init := articles[..|articles| - 1];
      var last := articles[|articles| - 1];
      SelectSound(done, init);
      assert articles == init + [last];
      var before := Select(done, init);
      if last.id !in done + Ids(before) {
        assert Select(done, articles) == before + [last];
        var ids := Ids(before + [last]);
        assert ids == Ids(before) + [last.id];
        assert Unique(Ids(before));
        forall i, j | 0 <= i < j < |ids|
          ensures ids[i] != ids[j]
        {
          if j == |ids| - 1 {
            assert ids[i] == Ids(before)[i];
            assert ids[i] in Ids(before);
          } else {
            assert ids[i] == Ids(before)[i] && ids[j] == Ids(before)[j];
          }
        }
      } else {
        assert Select(done, articles) == before;
      }
    }
  }

  /** An article is submitted exactly when its id is new to `done` and to
      every article before it in the batch, whether or not those were
      submitted. */
  lemma SelectNext(done: seq<string>, init: seq<Article>, next: Article)
    ensures Select(done, init + [next]) ==
      if next.id !in done && (forall a :: a in init ==> a.id != next.id)
      then Select(done, init) + [next]
      else Select(done, init)
  {
    var all := init + [next];
    assert all[..|all| - 1] == init;
    SelectSound(done, init);
    var before := Select(done, init);
    if next.id in Ids(before) {
      var i :| 0 <= i < |before| && Ids(before)[i] == next.id;
      assert before[i] in init;
    }
  }

  /** The description comment goes under a submission exactly when the
      submission went through, POST_DESCRIPTION is set and the article has
      a description. */
  function CommentFor(cfg: RssConfig, a: Article, outcome: Outcome): (c: Option<string>)
    ensures c.Some? <==> outcome == Submitted && cfg.postDescription && a.description.Some?
    ensures c.Some? ==> c.value == DescriptionText(a.description.value)
  {
    if outcome == Submitted && cfg.postDescription && a.description.Some? then Some(DescriptionText(a.description.value))
    else None
  }

  /** The article loop of one pass. `submit` stands for Reddit's answer to
      `sub.submit`. An id is recorded in `done` before the submission is
      tried, so an article Reddit rejects is not retried; any exception
      other than AlreadySubmitted ends the pass. `seen` counts the
      articles looked at. */
  method ProcessArticles(cfg: RssConfig, done: seq<string>, articles: seq<Article>, submit: Article -> Outcome)
    returns (done': seq<string>, posts: seq<Submission>, seen: nat, aborted: bool)
    ensures seen <= |articles|
    ensures !aborted ==> seen == |articles|
    ensures Posted(posts) == Select(done, articles[..seen])
    ensures done' == done + Ids(Posted(posts))
    ensures forall i :: 0 <= i < |posts| ==>
      && posts[i].outcome == submit(posts[i].article)
      && posts[i].resubmit == cfg.resubmitAnyways
      && posts[i].comment == CommentFor(cfg, posts[i].article, posts[i].outcome)
    ensures aborted <==> posts != [] && posts[|posts| - 1].outcome == Failed
    ensures forall i :: 0 <= i < |posts| - 1 ==> posts[i].outcome != Failed
  {
    done' := done;
    posts := [];
    seen := 0;
    aborted := false;
    while seen < |articles| && !aborted
      invariant Looked(cfg, submit, done, articles, done', posts, seen)
      invariant aborted <==> posts != [] && posts[|posts| - 1].outcome == Failed
      decreases |articles| - seen, !aborted
    {
      var a := articles[seen];
      if a.id !in done' {
        var outcome := submit(a);
        var entry := Submission(a, cfg.resubmitAnyways, outcome, CommentFor(cfg, a, outcome));
        SubmitStep(cfg, submit, done, articles, done', posts, seen, entry);
        done' := done' + [a.id];
        posts := posts + [entry];
        aborted := outcome == Failed;
      } else {
        SkipStep(cfg, submit, done, articles, done', posts, seen);
      }
      seen := seen + 1;
    }
  }

  /** The loop invariant after `seen` articles: the submissions so far are
      the selection from those articles, `done` has grown by their ids, and
      each submission is recorded faithfully. */
  predicate Looked(cfg: RssConfig, submit: Article -> Outcome, done: seq<string>, articles: seq<Article>,
                   done': seq<string>, posts: seq<Submission>, seen: nat)
  {
    && seen <= |articles|
    && Posted(posts) == Select(done, articles[..seen])
    && done' == done + Ids(Posted(posts))
    && Faithful(cfg, submit, posts)
    && FailsLastOnly(posts)
  }

  /** An article whose id is already done is passed over. */
  lemma SkipStep(cfg: RssConfig, submit: Article -> Outcome, done: seq<string>, articles: seq<Article>,
                 done': seq<string>, posts: seq<Submission>, seen: nat)
    requires Looked(cfg, submit, done, articles, done', posts, seen)
    requires seen < |articles| && articles[seen].id in done'
    ensures Looked(cfg, submit, done, articles, done', posts, seen + 1)
  {
    SelectPrefix(done, articles, seen);
  }

  /** An article whose id is new is recorded and submitted. */
  lemma SubmitStep(cfg: RssConfig, submit: Article -> Outcome, done: seq<string>, articles: seq<Article>,
                   done': seq<string>, posts: seq<Submission>, seen: nat, entry: Submission)
    requires Looked(cfg, submit, done, articles, done', posts, seen)
    requires posts == [] || posts[|posts| - 1].outcome != Failed
    requires seen < |articles| && articles[seen].id !in done'
    requires entry.article == articles[seen]
    requires entry.outcome == submit(entry.article) && entry.resubmit == cfg.resubmitAnyways
    requires entry.comment == CommentFor(cfg, entry.article, entry.outcome)
    ensures Looked(cfg, submit, done, articles, done' + [entry.article.id], posts + [entry], seen + 1)
  {
    SelectPrefix(done, articles, seen);
    PostedAppend(posts, entry);
    FaithfulAppend(cfg, submit, posts, entry);
  }

  /** Every submission is the one `submit` answered for its article, with
      the configured resubmit flag and the matching comment. */
  predicate Faithful(cfg: RssConfig, submit: Article -> Outcome, posts: seq<Submission>)
  {
    forall i :: 0 <= i < |posts| ==>
      && posts[i].outcome == submit(posts[i].article)
      && posts[i].resubmit == cfg.resubmitAnyways
      && posts[i].comment == CommentFor(cfg, posts[i].article, posts[i].outcome)
  }

  /** No submission but the last one failed. */
  predicate FailsLastOnly(posts: seq<Submission>)
  {
    forall i :: 0 <= i < |posts| - 1 ==> posts[i].outcome != Failed
  }

  lemma FaithfulAppend(cfg: RssConfig, submit: Article -> Outcome, posts: seq<Submission>, entry: Submission)
    requires Faithful(cfg, submit, posts) && FailsLastOnly(posts)
    requires posts == [] || posts[|posts| - 1].outcome != Failed
    requires entry.outcome == submit(entry.article) && entry.resubmit == cfg.resubmitAnyways
    requires entry.comment == CommentFor(cfg, entry.article, entry.outcome)
    ensures Faithful(cfg, submit, posts + [entry]) && FailsLastOnly(posts + [entry])
  {
    var all := posts + [entry];
    forall i | 0 <= i < |all| - 1
      ensures all[i].outcome != Failed
    {
      assert all[i] == posts[i];
    }
  }

  /** One more article of the batch looked at. */
  lemma SelectPrefix(done: seq<string>, articles: seq<Article>, n: nat)
    requires n < |articles|
    ensures var before := Select(done, articles[..n]);
      Select(done, articles[..n + 1]) ==
        if articles[n].id in done + Ids(before) then before else before + [articles[n]]
  {
    assert articles[..n + 1][..n] == articles[..n];
    assert articles[..n + 1][n] == articles[n];
  }

  /** One more submission recorded. */
  lemma PostedAppend(posts: seq<Submission>, entry: Submission)
    ensures Posted(posts + [entry]) == Posted(posts) + [entry.article]
    ensures Ids(Posted(posts + [entry])) == Ids(Posted(posts)) + [entry.article.id]
  {
    assert Posted(posts + [entry]) == Posted(posts) + [entry.article];
  }

  /** What a pass saves: `write_config_done` after the loop, whether it
      ended normally or by an exception. */
  method Pass(cfg: RssConfig, done: seq<string>, articles: seq<Article>, submit: Article -> Outcome)
    returns (saved: string, done': seq<string>, posts: seq<Submission>)
    ensures saved == DoneText(done')
    ensures forall a :: a in Posted(posts) ==> a.id in done' && a.id !in done
    ensures forall i :: 0 <= i < |done| ==> done[i] in done'
  {
    var seen, aborted;
    done', posts, seen, aborted := ProcessArticles(cfg, done, articles, submit);
    SelectSound(done, articles[..seen]);
    saved := DoneText(done');
  }

  /** Across a restart: after `done.txt` is written and read back, no
      article submitted before is submitted again, unless its id is empty
      (the writer drops empty ids). */
  lemma NoResubmission(done: seq<string>, earlier: seq<Article>, later: seq<Article>)
    requires forall i :: 0 <= i < |done| ==> DoneSafe(done[i])
    requires forall a :: a in Select(done, earlier) ==> DoneSafe(a.id)
    ensures
      var done' := done + Ids(Select(done, earlier));
      forall a, b :: a in Select(ReadDone(Some(DoneText(done'))), later) && b in earlier && a.id == b.id ==> a.id == ""
  {
    var done' := done + Ids(Select(done, earlier));
    SelectSound(done, earlier);
    forall i | 0 <= i < |done'|
      ensures DoneSafe(done'[i])
    {
      if i >= |done| {
        assert done'[i] == Select(done, earlier)[i - |done|].id;
      }
    }
    DoneRoundTrip(done');
    SelectSound(ReadDone(Some(DoneText(done'))), later);
  }
}
