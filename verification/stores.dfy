/** The line-oriented text files the bots keep their tables in
    (`elo.txt`, `progress.txt`, `done.txt`), as pure writers from tables
    to file text and readers from file text back to tables. A reader
    takes `None` when the file could not be opened: the source then logs
    and returns an empty table. */
module Stores {
  import opened Wrappers
  import opened Text
  import opened Numerals
  import opened Tables

  /** What a reader raises on a malformed line: `parts[i]` past the end of
      the fields, or `int()` on something that is not a number. Neither is
      caught by the readers. */
  datatype ReadError = IndexError | ValueError

  /** `order` lists the elements of `s`, each once: the order in which
      Python iterates a dict or a set. */
  ghost predicate Enumerates(order: seq<string>, s: set<string>) {
    && (forall i, j :: 0 <= i < j < |order| ==> order[i] != order[j])
    && (forall x :: x in s <==> x in order)
  }

  /** The lines of a file's text as `for line in f` sees them. */
  function FileLines(text: string): seq<string> {
    Lines(Newlines(text))
  }

  // ---------------------------------------------------------------------------
  // elo.txt: one "name<TAB>rating" per line
  // ---------------------------------------------------------------------------

  function EloLine(name: string, rating: int): string {
    name + "\t" + IntToString(rating) + "\n"
  }

  function EloText(elo: map<string, int>, keys: seq<string>): string
    requires forall i :: 0 <= i < |keys| ==> keys[i] in elo
    decreases |keys|
  {
    if keys == [] then "" else EloLine(keys[0], elo[keys[0]]) + EloText(elo, keys[1..])
  }

  /** `write_config_elo(elo)`, keys in the dict's iteration order `order`. */
  function WriteElo(elo: map<string, int>, order: seq<string>): string
    requires Enumerates(order, elo.Keys)
  {
    EloText(elo, order)
  }

  /** The loop body of `read_config_elo`, one line after the other; a later
      line for the same name overrides an earlier one. */
  function ParseEloLines(lines: seq<string>, acc: map<string, int>): (r: Result<map<string, int>, ReadError>)
    requires forall k :: k in acc ==> Stripped(k)
    ensures r.Success? ==> forall k :: k in r.value ==> Stripped(k)
    ensures r.Success? ==> acc.Keys <= r.value.Keys
    decreases |lines|
  {
    if lines == [] then Success(acc)
    else
      var parts := Split(lines[0], '\t');
      if |parts| < 2 then Failure(IndexError)
      else match ParseInt(parts[1])
        case None => Failure(ValueError)
        case Some(v) =>
          StripIsStripped(parts[0]);
          ParseEloLines(lines[1..], acc[Strip(parts[0]) := v])
  }

  /** `read_config_elo()`. */
  function ReadElo(file: Option<string>): (r: Result<map<string, int>, ReadError>)
    ensures file.None? ==> r == Success(map[])
    ensures r.Success? ==> forall k :: k in r.value ==> Stripped(k)
  {
    match file
    case None => Success(map[])
    case Some(text) => ParseEloLines(FileLines(text), map[])
  }

  /** The ratings of the listed names. */
  function Ratings(elo: map<string, int>, keys: seq<string>): (m: map<string, int>)
    requires forall i :: 0 <= i < |keys| ==> keys[i] in elo
  {
    map k | k in elo && k in keys :: elo[k]
  }

  lemma {:induction false} EloTextHasNoCR(elo: map<string, int>, keys: seq<string>)
    requires forall i :: 0 <= i < |keys| ==> keys[i] in elo && FieldSafe(keys[i])
    ensures '\r' !in EloText(elo, keys)
    decreases |keys|
  {
    if keys != [] {
      EloTextHasNoCR(elo, keys[1..]);
      var s := IntToString(elo[keys[0]]);
      assert '\r' !in s;
    }
  }

  /** One written rating line splits into the name and the number. */
  lemma EloLineFields(k: string, v: int)
    requires FieldSafe(k)
    ensures Split(EloLine(k, v), '\t') == [k, IntToString(v) + "\n"]
  {
    var n := IntToString(v) + "\n";
    NumberLineHasNoTab(v);
    assert EloLine(k, v) == k + ['\t'] + n;
    SplitCons(k, n, '\t');
    SplitNoSep(n, '\t');
  }

  lemma NumberLineHasNoTab(v: int)
    ensures '\t' !in IntToString(v) + "\n"
  {
    var s := IntToString(v);
    assert forall i :: 0 <= i < |s| ==> s[i] != '\t';
  }

  lemma ParseEloLine(k: string, v: int, rest: seq<string>, acc: map<string, int>)
    requires FieldSafe(k) && Stripped(k)
    requires forall x :: x in acc ==> Stripped(x)
    ensures ParseEloLines([EloLine(k, v)] + rest, acc) == ParseEloLines(rest, acc[k := v])
  {
    var lines := [EloLine(k, v)] + rest;
    assert lines[0] == EloLine(k, v) && lines[1..] == rest;
    EloLineFields(k, v);
    var parts := Split(lines[0], '\t');
    assert parts == [k, IntToString(v) + "\n"];
    IntRoundTrip(v, "\n");
    assert ParseInt(parts[1]) == Some(v);
    StripOfStripped(k);
    assert Strip(parts[0]) == k;
  }

  lemma EloTextCons(elo: map<string, int>, keys: seq<string>)
    requires |keys| > 0 && forall i :: 0 <= i < |keys| ==> keys[i] in elo && FieldSafe(keys[i])
    ensures Lines(EloText(elo, keys)) == [EloLine(keys[0], elo[keys[0]])] + Lines(EloText(elo, keys[1..]))
  {
    var k := keys[0];
    var n := IntToString(elo[k]);
    assert '\n' !in n;
    LinesCons(k + "\t" + n, EloText(elo, keys[1..]));
    assert EloText(elo, keys) == k + "\t" + n + "\n" + EloText(elo, keys[1..]);
  }

  lemma {:induction false} ParseEloText(elo: map<string, int>, keys: seq<string>, acc: map<string, int>)
    requires forall i :: 0 <= i < |keys| ==> keys[i] in elo && FieldSafe(keys[i]) && Stripped(keys[i])
    requires forall k :: k in acc ==> Stripped(k)
    ensures ParseEloLines(Lines(EloText(elo, keys)), acc) == Success(acc + Ratings(elo, keys))
    decreases |keys|
  {
    if keys == [] {
      assert Ratings(elo, keys) == map[];
      assert acc + map[] == acc;
    } else {
      var k, rest := keys[0], keys[1..];
      var v := elo[k];
      var tail := Lines(EloText(elo, rest));
      assert forall i :: 0 <= i < |rest| ==> rest[i] == keys[i + 1];
      assert FieldSafe(k) && Stripped(k);
      calc {
        ParseEloLines(Lines(EloText(elo, keys)), acc);
        { EloTextCons(elo, keys); }
        ParseEloLines([EloLine(k, v)] + tail, acc);
        { ParseEloLine(k, v, tail, acc); }
        ParseEloLines(tail, acc[k := v]);
        { ParseEloText(elo, rest, acc[k := v]); }
        Success(acc[k := v] + Ratings(elo, rest));
        { RatingsCons(elo, keys, acc); }
        Success(acc + Ratings(elo, keys));
      }
    }
  }

  lemma RatingsCons(elo: map<string, int>, keys: seq<string>, acc: map<string, int>)
    requires |keys| > 0 && forall i :: 0 <= i < |keys| ==> keys[i] in elo
    ensures acc[keys[0] := elo[keys[0]]] + Ratings(elo, keys[1..]) == acc + Ratings(elo, keys)
  {
    var k := keys[0];
    var left := acc[k := elo[k]] + Ratings(elo, keys[1..]);
    var right := acc + Ratings(elo, keys);
    assert forall x :: x in keys <==> x == k || x in keys[1..];
    assert left.Keys == right.Keys;
    forall x | x in left
      ensures left[x] == right[x]
    {
    }
  }

  lemma RatingsOfAll(elo: map<string, int>, order: seq<string>)
    requires Enumerates(order, elo.Keys)
    ensures Ratings(elo, order) == elo
  {
    assert Ratings(elo, order).Keys == elo.Keys;
  }

  lemma OrderedKeys(elo: map<string, int>, order: seq<string>)
    requires Enumerates(order, elo.Keys)
    requires forall k :: k in elo ==> FieldSafe(k) && Stripped(k)
    ensures forall i :: 0 <= i < |order| ==> order[i] in elo && FieldSafe(order[i]) && Stripped(order[i])
  {
    forall i | 0 <= i < |order|
      ensures order[i] in elo
    {
      assert order[i] in order;
    }
  }

  lemma EmptyUnion(m: map<string, int>)
    ensures map[] + m == m
  {
  }

  /** Reading back what `write_config_elo` wrote gives the same ratings,
      provided no name holds a tab or a line break or starts or ends with
      whitespace. */
  lemma EloRoundTrip(elo: map<string, int>, order: seq<string>)
    requires Enumerates(order, elo.Keys)
    requires forall k :: k in elo ==> FieldSafe(k) && Stripped(k)
    ensures ReadElo(Some(WriteElo(elo, order))) == Success(elo)
  {
    OrderedKeys(elo, order);
    var text := EloText(elo, order);
    EloTextHasNoCR(elo, order);
    NewlinesNoCR(text);
    ParseEloText(elo, order, map[]);
    RatingsOfAll(elo, order);
    EmptyUnion(Ratings(elo, order));
  }

  // ---------------------------------------------------------------------------
  // progress.txt: "id<TAB>winner<TAB>flag<TAB>loser<TAB>flag" per line
  // ---------------------------------------------------------------------------

  /** `str(flag)`. */
  function BoolText(b: bool): string {
    if b then "True" else "False"
  }

  function ProgressLine(id: string, r: Report): string {
    ProgressFields(id, r) + "\n"
  }

  function ProgressText(progress: map<string, Report>, keys: seq<string>): string
    requires forall i :: 0 <= i < |keys| ==> keys[i] in progress
    decreases |keys|
  {
    if keys == [] then ""
    else ProgressLine(keys[0], progress[keys[0]]) + ProgressText(progress, keys[1..])
  }

  /** `write_config_progress(progress)`, keys in iteration order `order`. */
  function WriteProgress(progress: map<string, Report>, order: seq<string>): string
    requires Enumerates(order, progress.Keys)
  {
    ProgressText(progress, order)
  }

  /** A flag field is read case-insensitively: only "true" in any case is true. */
  function ReadFlag(field: string): bool {
    Lower(field) == "true"
  }

  /** The loop body of `read_config_progress`: the line is stripped as a whole
      and cut at tabs; fields past the fifth are ignored. */
  function ParseProgressLines(lines: seq<string>, acc: map<string, Report>): (r: Result<map<string, Report>, ReadError>)
    ensures r.Success? ==> acc.Keys <= r.value.Keys
    decreases |lines|
  {
    if lines == [] then Success(acc)
    else
      var parts := Split(Strip(lines[0]), '\t');
      if |parts| < 5 then Failure(IndexError)
      else
        var report := Report(Slot(parts[1], ReadFlag(parts[2])), Slot(parts[3], ReadFlag(parts[4])));
        ParseProgressLines(lines[1..], acc[parts[0] := report])
  }

  /** `read_config_progress()`. */
  function ReadProgress(file: Option<string>): (r: Result<map<string, Report>, ReadError>)
    ensures file.None? ==> r == Success(map[])
  {
    match file
    case None => Success(map[])
    case Some(text) => ParseProgressLines(FileLines(text), map[])
  }

  /** What a progress line can hold and give back: an id that is not empty
      and does not start with whitespace (the reader strips the line), and
      no tab or line break in any field. */
  ghost predicate ProgressSafe(id: string, r: Report) {
    && id != [] && !IsSpace(id[0]) && FieldSafe(id)
    && FieldSafe(r.winner.name) && FieldSafe(r.loser.name)
  }

  /** The fields of a progress line, without its line break. */
  function ProgressFields(id: string, r: Report): string {
    id + "\t" + r.winner.name + "\t" + BoolText(r.winner.confirmed)
       + "\t" + r.loser.name + "\t" + BoolText(r.loser.confirmed)
  }

  lemma ProgressLineStrip(id: string, r: Report)
    requires ProgressSafe(id, r)
    ensures ProgressLine(id, r) == ProgressFields(id, r) + "\n"
    ensures Strip(ProgressLine(id, r)) == ProgressFields(id, r)
  {
    var body := ProgressFields(id, r);
    assert body[0] == id[0];
    var flag := BoolText(r.loser.confirmed);
    assert body == (id + "\t" + r.winner.name + "\t" + BoolText(r.winner.confirmed)
       + "\t" + r.loser.name + "\t") + flag;
    assert flag[|flag| - 1] == 'e';
    assert body[|body| - 1] == 'e';
    StripTrailing(body, "\n");
  }

  lemma ProgressLineFields(id: string, r: Report)
    requires ProgressSafe(id, r)
    ensures Split(Strip(ProgressLine(id, r)), '\t')
         == [id, r.winner.name, BoolText(r.winner.confirmed), r.loser.name, BoolText(r.loser.confirmed)]
  {
    ProgressLineStrip(id, r);
    BoolTextPlain(r.winner.confirmed);
    BoolTextPlain(r.loser.confirmed);
    SplitFive(id, r.winner.name, BoolText(r.winner.confirmed), r.loser.name, BoolText(r.loser.confirmed));
  }

  lemma SplitFive(a: string, b: string, c: string, d: string, e: string)
    requires '\t' !in a && '\t' !in b && '\t' !in c && '\t' !in d && '\t' !in e
    ensures Split(a + "\t" + b + "\t" + c + "\t" + d + "\t" + e, '\t') == [a, b, c, d, e]
  {
    var r3 := d + ['\t'] + e;
    var r2 := c + ['\t'] + r3;
    var r1 := b + ['\t'] + r2;
    FieldsAssociate(a, b, c, d, e);
    SplitNoSep(e, '\t');
    SplitCons(d, e, '\t');
    SplitCons(c, r3, '\t');
    SplitCons(b, r2, '\t');
    SplitCons(a, r1, '\t');
  }

  lemma BoolTextPlain(b: bool)
    ensures '\t' !in BoolText(b) && '\n' !in BoolText(b) && '\r' !in BoolText(b)
  {
  }

  lemma FieldsAssociate(a: string, b: string, c: string, d: string, e: string)
    ensures a + "\t" + b + "\t" + c + "\t" + d + "\t" + e
         == a + ['\t'] + (b + ['\t'] + (c + ['\t'] + (d + ['\t'] + e)))
  {
  }

  lemma ReadFlagOfText(b: bool)
    ensures ReadFlag(BoolText(b)) == b
  {
    if b {
      assert Lower("True") == "true";
    } else {
      assert Lower("False") == "false";
    }
  }

  lemma ParseProgressLine(id: string, r: Report, rest: seq<string>, acc: map<string, Report>)
    requires ProgressSafe(id, r)
    ensures ParseProgressLines([ProgressLine(id, r)] + rest, acc) == ParseProgressLines(rest, acc[id := r])
  {
    ProgressLineFields(id, r);
    ReadFlagOfText(r.winner.confirmed);
    ReadFlagOfText(r.loser.confirmed);
    assert ([ProgressLine(id, r)] + rest)[1..] == rest;
  }

  lemma ProgressTextCons(progress: map<string, Report>, keys: seq<string>)
    requires |keys| > 0 && forall i :: 0 <= i < |keys| ==> keys[i] in progress
    requires ProgressSafe(keys[0], progress[keys[0]])
    ensures Lines(ProgressText(progress, keys))
         == [ProgressLine(keys[0], progress[keys[0]])] + Lines(ProgressText(progress, keys[1..]))
  {
    var id := keys[0];
    var r := progress[id];
    var body := ProgressFields(id, r);
    assert '\n' !in body;
    LinesCons(body, ProgressText(progress, keys[1..]));
    assert ProgressText(progress, keys) == body + "\n" + ProgressText(progress, keys[1..]);
  }

  lemma {:induction false} ProgressTextHasNoCR(progress: map<string, Report>, keys: seq<string>)
    requires forall i :: 0 <= i < |keys| ==> keys[i] in progress && ProgressSafe(keys[i], progress[keys[i]])
    ensures '\r' !in ProgressText(progress, keys)
    decreases |keys|
  {
    if keys != [] {
      var rest := keys[1..];
      assert forall i :: 0 <= i < |rest| ==> rest[i] == keys[i + 1];
      ProgressTextHasNoCR(progress, rest);
      var r := progress[keys[0]];
      assert ProgressSafe(keys[0], r);
      BoolTextPlain(r.winner.confirmed);
      BoolTextPlain(r.loser.confirmed);
      assert '\r' !in ProgressLine(keys[0], r);
      assert ProgressText(progress, keys) == ProgressLine(keys[0], r) + ProgressText(progress, rest);
    }
  }

  /** The pending reports of the listed ids. */
  function Pending(progress: map<string, Report>, keys: seq<string>): map<string, Report> {
    map k | k in progress && k in keys :: progress[k]
  }

  lemma PendingCons(progress: map<string, Report>, keys: seq<string>, acc: map<string, Report>)
    requires |keys| > 0 && forall i :: 0 <= i < |keys| ==> keys[i] in progress
    ensures acc[keys[0] := progress[keys[0]]] + Pending(progress, keys[1..]) == acc + Pending(progress, keys)
  {
    var k := keys[0];
    var left := acc[k := progress[k]] + Pending(progress, keys[1..]);
    var right := acc + Pending(progress, keys);
    assert forall x :: x in keys <==> x == k || x in keys[1..];
    assert left.Keys == right.Keys;
    forall x | x in left
      ensures left[x] == right[x]
    {
    }
  }

  lemma PendingOfAll(progress: map<string, Report>, order: seq<string>)
    requires Enumerates(order, progress.Keys)
    ensures Pending(progress, order) == progress
  {
    assert Pending(progress, order).Keys == progress.Keys;
  }

  lemma {:induction false} ParseProgressText(progress: map<string, Report>, keys: seq<string>, acc: map<string, Report>)
    requires forall i :: 0 <= i < |keys| ==> keys[i] in progress && ProgressSafe(keys[i], progress[keys[i]])
    ensures ParseProgressLines(Lines(ProgressText(progress, keys)), acc) == Success(acc + Pending(progress, keys))
    decreases |keys|
  {
    if keys == [] {
      assert Pending(progress, keys) == map[];
      assert acc + map[] == acc;
    } else {
      var k, rest := keys[0], keys[1..];
      var r := progress[k];
      var tail := Lines(ProgressText(progress, rest));
      assert forall i :: 0 <= i < |rest| ==> rest[i] == keys[i + 1];
      assert ProgressSafe(k, r);
      calc {
        ParseProgressLines(Lines(ProgressText(progress, keys)), acc);
        { ProgressTextCons(progress, keys); }
        ParseProgressLines([ProgressLine(k, r)] + tail, acc);
        { ParseProgressLine(k, r, tail, acc); }
        ParseProgressLines(tail, acc[k := r]);
        { ParseProgressText(progress, rest, acc[k := r]); }
        Success(acc[k := r] + Pending(progress, rest));
        { PendingCons(progress, keys, acc); }
        Success(acc + Pending(progress, keys));
      }
    }
  }

  lemma OrderedIds(progress: map<string, Report>, order: seq<string>)
    requires Enumerates(order, progress.Keys)
    requires forall id :: id in progress ==> ProgressSafe(id, progress[id])
    ensures forall i :: 0 <= i < |order| ==> order[i] in progress && ProgressSafe(order[i], progress[order[i]])
  {
    forall i | 0 <= i < |order|
      ensures order[i] in progress
    {
      assert order[i] in order;
    }
  }

  lemma EmptyUnionOfReports(m: map<string, Report>)
    ensures map[] + m == m
  {
  }

  /** Reading back what `write_config_progress` wrote gives the same pending
      reports, names and flags paired as they were. */
  lemma ProgressRoundTrip(progress: map<string, Report>, order: seq<string>)
    requires Enumerates(order, progress.Keys)
    requires forall id :: id in progress ==> ProgressSafe(id, progress[id])
    ensures ReadProgress(Some(WriteProgress(progress, order))) == Success(progress)
  {
    OrderedIds(progress, order);
    var text := ProgressText(progress, order);
    ProgressTextHasNoCR(progress, order);
    NewlinesNoCR(text);
    ParseProgressText(progress, order, map[]);
    PendingOfAll(progress, order);
    EmptyUnionOfReports(Pending(progress, order));
  }

  // ---------------------------------------------------------------------------
  // done.txt: one id per line; both bots use the same format
  // ---------------------------------------------------------------------------

  /** `write_config_done(done)` over the ids in iteration order: empty ids
      are skipped. */
  function DoneText(ids: seq<string>): string
    decreases |ids|
  {
    if ids == [] then ""
    else (if ids[0] != "" then ids[0] + "\n" else "") + DoneText(ids[1..])
  }

  /** The loop body of `read_config_done`: each line stripped, blank lines skipped. */
  function ParseDoneLines(lines: seq<string>): (ids: seq<string>)
    ensures forall i :: 0 <= i < |ids| ==> ids[i] != "" && Stripped(ids[i])
    ensures |ids| <= |lines|
    decreases |lines|
  {
    if lines == [] then []
    else
      var id := Strip(lines[0]);
      (if id != "" then [id] else []) + ParseDoneLines(lines[1..])
  }

  /** `read_config_done()` of the RSS bot, which keeps the ids in a list. */
  function ReadDone(file: Option<string>): (ids: seq<string>)
    ensures file.None? ==> ids == []
    ensures forall i :: 0 <= i < |ids| ==> ids[i] != "" && Stripped(ids[i])
  {
    match file
    case None => []
    case Some(text) => ParseDoneLines(FileLines(text))
  }

  /** The ids without the empty ones. */
  function NonEmpty(ids: seq<string>): (r: seq<string>)
    ensures forall x :: x in r <==> x in ids && x != ""
    decreases |ids|
  {
    if ids == [] then []
    else (if ids[0] != "" then [ids[0]] else []) + NonEmpty(ids[1..])
  }

  /** An id a done file can hold and give back: no line break, no
      whitespace at either end. */
  predicate DoneSafe(id: string) {
    '\n' !in id && '\r' !in id && Stripped(id)
  }

  lemma {:induction false} DoneTextHasNoCR(ids: seq<string>)
    requires forall i :: 0 <= i < |ids| ==> DoneSafe(ids[i])
    ensures '\r' !in DoneText(ids)
    decreases |ids|
  {
    if ids != [] {
      DoneTextHasNoCR(ids[1..]);
    }
  }

  lemma {:induction false} ParseDoneText(ids: seq<string>)
    requires forall i :: 0 <= i < |ids| ==> DoneSafe(ids[i])
    ensures ParseDoneLines(Lines(DoneText(ids))) == NonEmpty(ids)
    decreases |ids|
  {
    if ids != [] {
      var id, rest := ids[0], ids[1..];
      assert forall i :: 0 <= i < |rest| ==> rest[i] == ids[i + 1];
      assert DoneSafe(id);
      var tail := Lines(DoneText(rest));
      if id != "" {
        calc {
          ParseDoneLines(Lines(DoneText(ids)));
          { assert DoneText(ids) == id + "\n" + DoneText(rest); LinesCons(id, DoneText(rest)); }
          ParseDoneLines([id + "\n"] + tail);
          { assert ([id + "\n"] + tail)[1..] == tail; StripTrailing(id, "\n"); }
          [id] + ParseDoneLines(tail);
          { ParseDoneText(rest); }
          [id] + NonEmpty(rest);
        }
      } else {
        calc {
          ParseDoneLines(Lines(DoneText(ids)));
          { assert DoneText(ids) == DoneText(rest); }
          ParseDoneLines(tail);
          { ParseDoneText(rest); }
          NonEmpty(rest);
        }
      }
    }
  }

  /** Reading back what `write_config_done` wrote gives the same ids in the
      same order, less the empty ones. */
  lemma DoneRoundTrip(ids: seq<string>)
    requires forall i :: 0 <= i < |ids| ==> DoneSafe(ids[i])
    ensures ReadDone(Some(DoneText(ids))) == NonEmpty(ids)
  {
    DoneTextHasNoCR(ids);
    NewlinesNoCR(DoneText(ids));
    ParseDoneText(ids);
  }

  /** `write_config_done(done)` of the Elo bot, whose `done` is a set. */
  function WriteDoneSet(done: set<string>, order: seq<string>): string
    requires Enumerates(order, done)
  {
    DoneText(order)
  }

  /** `read_config_done()` of the Elo bot. */
  function ReadDoneSet(file: Option<string>): (done: set<string>)
    ensures "" !in done
    ensures file.None? ==> done == {}
  {
    set id | id in ReadDone(file)
  }

  /** Reading back the Elo bot's done file gives the same set of non-empty ids. */
  lemma DoneSetRoundTrip(done: set<string>, order: seq<string>)
    requires Enumerates(order, done)
    requires forall id :: id in done ==> DoneSafe(id)
    ensures ReadDoneSet(Some(WriteDoneSet(done, order))) == done - {""}
  {
    assert forall i :: 0 <= i < |order| ==> DoneSafe(order[i]);
    DoneRoundTrip(order);
  }
}
