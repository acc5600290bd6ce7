/** Judging a run and replaying its dead letters (melp/judge/orchestrator.py,
    melp/scripts/dlq_replay.py). Whether the judge answers for an example is arbitrary. */
module JudgePlane {

  /** One line of the predictions artifact. */
  datatype Example = Example(id: string, prediction: string)

  datatype Judgment = Judgment(run: string, exampleId: string)

  /** The ids whose outcome (ok or not) is the wanted one, in order. */
  function Ids(examples: seq<Example>, ok: seq<bool>, wanted: bool): seq<string>
    requires |ok| == |examples|
  {
    if examples == [] then []
    else
      var n := |examples| - 1;
      Ids(examples[..n], ok[..n], wanted) + if ok[n] == wanted then [examples[n].id] else []
  }

  function Rows(run: string, ids: seq<string>): seq<Judgment> {
    seq(|ids|, k requires 0 <= k < |ids| => Judgment(run, ids[k]))
  }

  /** The dead-letter list of a run; a missing key reads as the empty list. */
  function Letters(dlq: map<string, seq<string>>, run: string): seq<string> {
    if run in dlq then dlq[run] else []
  }

  /** The last line with the id, as the dict over all lines keeps it. */
  function ById(preds: seq<Example>, id: string): seq<Example> {
    if preds == [] then []
    else if preds[|preds| - 1].id == id then [preds[|preds| - 1]]
    else ById(preds[..|preds| - 1], id)
  }

  /** The examples of the letters that are in the artifact. */
  function ToReplay(preds: seq<Example>, letters: seq<string>): seq<Example> {
    if letters == [] then []
    else ToReplay(preds, letters[..|letters| - 1]) + ById(preds, letters[|letters| - 1])
  }

  /** The list a replay of `replayed` leaves behind: unchanged if there was nothing to replay, gone if
      every call succeeded, and longer by the failures otherwise. */
  function LettersAfter(letters: seq<string>, replayed: seq<Example>, ok: seq<bool>): seq<string>
    requires |ok| == |replayed|
  {
    if replayed == [] then letters
    else if false !in ok then []
    else letters + Ids(replayed, ok, false)
  }

  class Plane {
    /** The judgment table. */
    var rows: seq<Judgment>
    /** The dead-letter lists in Redis. */
    var dlq: map<string, seq<string>>

    constructor ()
      ensures rows == [] && dlq == map[]
    {
      rows, dlq := [], map[];
    }

    /** `judge_run`: `ok[k]` says whether judging example k returned normally. */
    method JudgeRun(run: string, judgeConfigured: bool, examples: seq<Example>, ok: seq<bool>) returns (judged: nat)
      requires |ok| == |examples|
      modifies this
      ensures !judgeConfigured ==> judged == 0 && rows == old(rows) && dlq == old(dlq)
      ensures judgeConfigured ==>
        && judged == |Ids(examples, ok, true)|
        && rows == old(rows) + Rows(run, Ids(examples, ok, true))
        && Letters(dlq, run) == Letters(old(dlq), run) + Ids(examples, ok, false)
      ensures forall other | other != run :: Letters(dlq, other) == Letters(old(dlq), other)
    {
      judged := 0;
      if !judgeConfigured {
        return;
      }
      var failed: seq<string> := [];
      for k := 0 to |examples|
        invariant judged == |Ids(examples[..k], ok[..k], true)|
        invariant rows == old(rows) + Rows(run, Ids(examples[..k], ok[..k], true))
        invariant failed == Ids(examples[..k], ok[..k], false)
        invariant dlq == old(dlq)
      {
        IdsSnoc(examples, ok, k);
        if !ok[k] {
          failed := failed + [examples[k].id];
          continue;
        }
        rows := rows + [Judgment(run, examples[k].id)];
        judged := judged + 1;
      }
      assert examples[..|examples|] == examples && ok[..|ok|] == ok;
      if failed != [] {
        dlq := dlq[run := Letters(dlq, run) + failed];
      }
    }

    /** `main` of the replay command: `ok` are the outcomes of judging the examples it replays. */
    method Replay(run: string, dryRun: bool, runExists: bool, judgeConfigured: bool, preds: seq<Example>, ok: seq<bool>)
      returns (exit: nat)
      requires |ok| == |ToReplay(preds, Letters(dlq, run))|
      modifies this
      ensures var letters := Letters(old(dlq), run);
              var replayed := ToReplay(preds, letters);
              if letters == [] || dryRun then exit == 0 && rows == old(rows) && dlq == old(dlq)
              else if replayed == [] || !runExists || !judgeConfigured then exit == 1 && rows == old(rows) && dlq == old(dlq)
              else
                && rows == old(rows) + Rows(run, Ids(replayed, ok, true))
                && (exit == 0 <==> false !in ok)
                && (exit == 0 || exit == 1)
                && Letters(dlq, run) == LettersAfter(letters, replayed, ok)
      ensures forall other | other != run :: Letters(dlq, other) == Letters(old(dlq), other)
    {
      var letters := Letters(dlq, run);
      if letters == [] {
        return 0;
      }
      if dryRun {
        return 0;
      }
      var replayed := ToReplay(preds, letters);
      if replayed == [] {
        return 1;
      }
      if !runExists {
        return 1;
      }
      IdsCount(replayed, ok);
      var n := JudgeRun(run, judgeConfigured, replayed, ok);
      if n == |replayed| {
        dlq := dlq - {run};
        return 0;
      }
      return 1;
    }
  }

  lemma IdsSnoc(examples: seq<Example>, ok: seq<bool>, k: nat)
    requires k < |examples| == |ok|
    ensures forall w :: Ids(examples[..k + 1], ok[..k + 1], w)
                        == Ids(examples[..k], ok[..k], w) + if ok[k] == w then [examples[k].id] else []
  {
    assert examples[..k + 1][..k] == examples[..k] && ok[..k + 1][..k] == ok[..k];
  }

  /** Judged and failed add up; all are judged exactly when no call failed. */
  lemma {:induction false} IdsCount(examples: seq<Example>, ok: seq<bool>)
    requires |ok| == |examples|
    ensures |Ids(examples, ok, true)| + |Ids(examples, ok, false)| == |examples|
    ensures |Ids(examples, ok, true)| == |examples| <==> false !in ok
  {
    if examples != [] {
      var n := |examples| - 1;
      IdsCount(examples[..n], ok[..n]);
      assert ok == ok[..n] + [ok[n]];
    }
  }

  // ---------- nothing is lost ----------

  lemma {:induction false} IdsMembers(examples: seq<Example>, ok: seq<bool>, wanted: bool, id: string)
    requires |ok| == |examples|
    ensures id in Ids(examples, ok, wanted) <==> exists k :: 0 <= k < |examples| && examples[k].id == id && ok[k] == wanted
  {
    if examples != [] {
      var n := |examples| - 1;
      IdsMembers(examples[..n], ok[..n], wanted, id);
      if id in Ids(examples[..n], ok[..n], wanted) {
        var k :| 0 <= k < n && examples[..n][k].id == id && ok[..n][k] == wanted;
        assert examples[k].id == id && ok[k] == wanted;
      }
      if k :| 0 <= k < |examples| && examples[k].id == id && ok[k] == wanted {
        if k < n { assert examples[..n][k].id == id && ok[..n][k] == wanted; }
      }
    }
  }

  /** e is the last line with the id. */
  ghost predicate IsLastLine(preds: seq<Example>, id: string, e: Example) {
    exists k: nat :: k < |preds| && preds[k] == e && e.id == id && forall l: nat | k < l < |preds| :: preds[l].id != id
  }

  lemma LastLineOfFront(preds: seq<Example>, id: string, e: Example)
    requires preds != [] && preds[|preds| - 1].id != id && IsLastLine(preds[..|preds| - 1], id, e)
    ensures IsLastLine(preds, id, e)
  {
    var front := preds[..|preds| - 1];
    var k: nat :| k < |front| && front[k] == e && e.id == id && forall l: nat | k < l < |front| :: front[l].id != id;
    assert preds[k] == e && forall l: nat | k < l < |preds| :: l < |front| ==> preds[l] == front[l];
  }

  lemma {:induction false} ByIdFinds(preds: seq<Example>, id: string)
    ensures |ById(preds, id)| <= 1
    ensures ById(preds, id) != [] <==> exists k :: 0 <= k < |preds| && preds[k].id == id
    ensures ById(preds, id) != [] ==> ById(preds, id)[0].id == id && IsLastLine(preds, id, ById(preds, id)[0])
  {
    if preds != [] {
      ByIdFinds(preds[..|preds| - 1], id);
      if preds[|preds| - 1].id == id {
        assert ById(preds, id)[0] == preds[|preds| - 1];
      } else if ById(preds, id) != [] {
        LastLineOfFront(preds, id, ById(preds, id)[0]);
      }
    }
  }

  ghost predicate HasId(examples: seq<Example>, id: string) {
    exists k :: 0 <= k < |examples| && examples[k].id == id
  }

  /** The replayed ids are the letters found in the artifact. */
  lemma {:induction false} ToReplayIds(preds: seq<Example>, letters: seq<string>, id: string)
    ensures HasId(ToReplay(preds, letters), id) <==> id in letters && HasId(preds, id)
  {
    if letters != [] {
      var n := |letters| - 1;
      var front, last := ToReplay(preds, letters[..n]), ById(preds, letters[n]);
      ToReplayIds(preds, letters[..n], id);
      ByIdFinds(preds, letters[n]);
      assert letters == letters[..n] + [letters[n]];
      HasIdAppend(front, last, id);
      if last != [] { assert last == [last[0]]; }
    }
  }

  lemma HasIdAppend(xs: seq<Example>, ys: seq<Example>, id: string)
    ensures HasId(xs + ys, id) <==> HasId(xs, id) || HasId(ys, id)
  {
    var zs := xs + ys;
    if HasId(xs, id) {
      var k :| 0 <= k < |xs| && xs[k].id == id;
      assert zs[k].id == id;
    }
    if HasId(ys, id) {
      var k :| 0 <= k < |ys| && ys[k].id == id;
      assert zs[|xs| + k].id == id;
    }
  }

  ghost predicate Judged(rows: seq<Judgment>, run: string, id: string) { Judgment(run, id) in rows }

  /** Every example of the artifact has a judgment or is in the dead-letter list. */
  ghost predicate Accounted(rows: seq<Judgment>, letters: seq<string>, run: string, preds: seq<Example>) {
    forall k | 0 <= k < |preds| :: Judged(rows, run, preds[k].id) || preds[k].id in letters
  }

  lemma RowsMembers(run: string, ids: seq<string>, id: string)
    ensures Judged(Rows(run, ids), run, id) <==> id in ids
  {
    if id in ids {
      var k :| 0 <= k < |ids| && ids[k] == id;
      assert Rows(run, ids)[k] == Judgment(run, id);
    }
  }

  /** Each judged call ends in exactly one place: a judgment or a letter. */
  lemma JudgeRunAccounts(rows: seq<Judgment>, letters: seq<string>, run: string, preds: seq<Example>, ok: seq<bool>)
    requires |ok| == |preds|
    ensures Accounted(rows + Rows(run, Ids(preds, ok, true)), letters + Ids(preds, ok, false), run, preds)
    ensures |Ids(preds, ok, true)| + |Ids(preds, ok, false)| == |preds|
  {
    IdsCount(preds, ok);
    forall k | 0 <= k < |preds|
      ensures Judged(rows + Rows(run, Ids(preds, ok, true)), run, preds[k].id) || preds[k].id in letters + Ids(preds, ok, false)
    {
      IdsMembers(preds, ok, ok[k], preds[k].id);
      RowsMembers(run, Ids(preds, ok, true), preds[k].id);
    }
  }

  /** A replay, whatever the judge answers, loses no example; and it empties the list only after
      every letter it could replay has its judgment. */
  lemma ReplayKeepsAccount(rows: seq<Judgment>, letters: seq<string>, run: string, preds: seq<Example>, ok: seq<bool>)
    requires |ok| == |ToReplay(preds, letters)|
    requires Accounted(rows, letters, run, preds)
    ensures var replayed := ToReplay(preds, letters);
            var rows' := rows + Rows(run, Ids(replayed, ok, true));
            && Accounted(rows', LettersAfter(letters, replayed, ok), run, preds)
            && (false !in ok ==> forall k | 0 <= k < |preds| :: Judged(rows', run, preds[k].id))
  {
    var replayed := ToReplay(preds, letters);
    var rows' := rows + Rows(run, Ids(replayed, ok, true));
    forall k | 0 <= k < |preds|
      ensures false !in ok ==> Judged(rows', run, preds[k].id)
      ensures Judged(rows', run, preds[k].id) || preds[k].id in LettersAfter(letters, replayed, ok)
    {
      var id := preds[k].id;
      if false !in ok && !Judged(rows, run, id) {
        ToReplayIds(preds, letters, id);
        var l :| 0 <= l < |replayed| && replayed[l].id == id;
        assert ok[l];
        IdsMembers(replayed, ok, true, id);
        RowsMembers(run, Ids(replayed, ok, true), id);
      }
    }
  }

  /** The state of one run across any number of replays, each with its own outcomes. */
  ghost predicate IsReplayTrace(rows: seq<seq<Judgment>>, letters: seq<seq<string>>, run: string, preds: seq<Example>, oks: seq<seq<bool>>) {
    && |rows| == |letters| == |oks| + 1
    && forall t: nat | t < |oks| :: IsReplay(rows[t], letters[t], rows[t + 1], letters[t + 1], run, preds, oks[t])
  }

  ghost predicate IsReplay(rows: seq<Judgment>, letters: seq<string>, rows': seq<Judgment>, letters': seq<string>,
                           run: string, preds: seq<Example>, ok: seq<bool>) {
    var replayed := ToReplay(preds, letters);
    && |ok| == |replayed|
    && rows' == rows + Rows(run, Ids(replayed, ok, true))
    && letters' == LettersAfter(letters, replayed, ok)
  }

  /** Conservation: after judging the artifact and any number of replays every example is accounted
      for; judgments are never withdrawn. */
  lemma {:induction false} ReplaysKeepAccount(rows: seq<seq<Judgment>>, letters: seq<seq<string>>, run: string, preds: seq<Example>, oks: seq<seq<bool>>, t: nat)
    requires IsReplayTrace(rows, letters, run, preds, oks) && t <= |oks|
    requires Accounted(rows[0], letters[0], run, preds)
    ensures Accounted(rows[t], letters[t], run, preds)
    ensures letters[t] == [] ==> forall k | 0 <= k < |preds| :: Judged(rows[t], run, preds[k].id)
    ensures rows[0] <= rows[t]
  {
    if t > 0 {
      ReplaysKeepAccount(rows, letters, run, preds, oks, t - 1);
      assert IsReplay(rows[t - 1], letters[t - 1], rows[t], letters[t], run, preds, oks[t - 1]);
      ReplayKeepsAccount(rows[t - 1], letters[t - 1], run, preds, oks[t - 1]);
    }
  }

  // ---------- judging twice ----------

  ghost predicate Distinct<T>(s: seq<T>) { forall k, l | 0 <= k < l < |s| :: s[k] != s[l] }

  ghost predicate UniqueIds(examples: seq<Example>) {
    forall k, l | 0 <= k < l < |examples| :: examples[k].id != examples[l].id
  }

  /** No example judged twice, none queued twice, none both judged and queued; every letter is of
      an example of the artifact. */
  ghost predicate Clean(rows: seq<Judgment>, letters: seq<string>, run: string, preds: seq<Example>) {
    && Distinct(rows) && Distinct(letters)
    && (forall k | 0 <= k < |letters| :: HasId(preds, letters[k]) && !Judged(rows, run, letters[k]))
  }

  lemma ByIdSingle(preds: seq<Example>, id: string)
    requires HasId(preds, id)
    ensures |ById(preds, id)| == 1 && ById(preds, id)[0].id == id && IsLastLine(preds, id, ById(preds, id)[0])
  {
    hide ById, IsLastLine;
    ByIdFinds(preds, id);
  }

  /** Letters of examples of the artifact are replayed in order, each with the last line of its id. */
  lemma {:induction false} ToReplayClean(preds: seq<Example>, letters: seq<string>)
    requires forall k | 0 <= k < |letters| :: HasId(preds, letters[k])
    ensures |ToReplay(preds, letters)| == |letters|
    ensures forall k | 0 <= k < |letters| :: ToReplay(preds, letters)[k].id == letters[k]
    ensures forall k | 0 <= k < |letters| :: IsLastLine(preds, letters[k], ToReplay(preds, letters)[k])
  {
    hide ById, HasId, IsLastLine;
    if letters != [] {
      var n := |letters| - 1;
      ToReplayClean(preds, letters[..n]);
      ByIdSingle(preds, letters[n]);
    }
  }

  lemma {:induction false} IdsAll(examples: seq<Example>, ok: seq<bool>)
    requires |ok| == |examples| && false !in ok
    ensures |Ids(examples, ok, true)| == |examples|
    ensures forall k | 0 <= k < |examples| :: Ids(examples, ok, true)[k] == examples[k].id
  {
    if examples != [] {
      var n := |examples| - 1;
      assert ok == ok[..n] + [ok[n]];
      IdsAll(examples[..n], ok[..n]);
    }
  }

  lemma FailureQueuesTwice(letters: seq<string>, replayed: seq<Example>, ok: seq<bool>)
    requires |ok| == |replayed| == |letters| && false in ok
    requires forall k | 0 <= k < |letters| :: replayed[k].id == letters[k]
    ensures !Distinct(LettersAfter(letters, replayed, ok))
  {
    var k :| 0 <= k < |ok| && ok[k] == false;
    IdsMembers(replayed, ok, false, letters[k]);
    var failed := Ids(replayed, ok, false);
    var l :| 0 <= l < |failed| && failed[l] == letters[k];
    var after := letters + failed;
    assert after[k] == after[|letters| + l];
  }

  lemma FreshRowsStayDistinct(rows: seq<Judgment>, letters: seq<string>, run: string)
    requires Distinct(rows) && Distinct(letters)
    requires forall k | 0 <= k < |letters| :: !Judged(rows, run, letters[k])
    ensures Distinct(rows + Rows(run, letters))
  {
  }

  /** From a clean state a replay stays clean if and only if every replayed call succeeds: after a
      partial replay the letters judged in it are still queued, and the failed ones queued twice. */
  lemma ReplayCleanIff(rows: seq<Judgment>, letters: seq<string>, run: string, preds: seq<Example>, ok: seq<bool>)
    requires Clean(rows, letters, run, preds) && |ok| == |ToReplay(preds, letters)|
    ensures var replayed := ToReplay(preds, letters);
            Clean(rows + Rows(run, Ids(replayed, ok, true)), LettersAfter(letters, replayed, ok), run, preds)
            <==> false !in ok
  {
    var replayed := ToReplay(preds, letters);
    ToReplayClean(preds, letters);
    if false in ok {
      FailureQueuesTwice(letters, replayed, ok);
    } else {
      IdsAll(replayed, ok);
      assert Ids(replayed, ok, true) == letters;
      FreshRowsStayDistinct(rows, letters, run);
    }
  }

  lemma {:induction false} IdsDistinct(examples: seq<Example>, ok: seq<bool>, wanted: bool)
    requires |ok| == |examples| && UniqueIds(examples)
    ensures Distinct(Ids(examples, ok, wanted))
  {
    if examples != [] {
      var n := |examples| - 1;
      IdsDistinct(examples[..n], ok[..n], wanted);
      IdsMembers(examples[..n], ok[..n], wanted, examples[n].id);
      var front, all := Ids(examples[..n], ok[..n], wanted), Ids(examples, ok, wanted);
      forall k, l | 0 <= k < l < |all|
        ensures all[k] != all[l]
      {
        if l == |front| { assert all[k] in front; }
      }
    }
  }

  /** Two examples with one id and one outcome give that id twice. */
  lemma {:induction false} IdsRepeat(examples: seq<Example>, ok: seq<bool>, wanted: bool, k: nat, l: nat)
    requires |ok| == |examples| && k < l < |examples|
    requires examples[k].id == examples[l].id && ok[k] == ok[l] == wanted
    ensures !Distinct(Ids(examples, ok, wanted))
  {
    var n := |examples| - 1;
    var front, all := Ids(examples[..n], ok[..n], wanted), Ids(examples, ok, wanted);
    if l < n {
      IdsRepeat(examples[..n], ok[..n], wanted, k, l);
      var x, y :| 0 <= x < y < |front| && front[x] == front[y];
      assert all[x] == all[y];
    } else {
      assert examples[..n][k] == examples[k] && ok[..n][k] == ok[k];
      IdsMembers(examples[..n], ok[..n], wanted, examples[k].id);
      var x :| 0 <= x < |front| && front[x] == examples[k].id;
      assert all[x] == all[|front|];
    }
  }

  lemma RepeatedRows(run: string, ids: seq<string>)
    requires !Distinct(ids)
    ensures !Distinct(Rows(run, ids))
  {
    var k, l :| 0 <= k < l < |ids| && ids[k] == ids[l];
    assert Rows(run, ids)[k] == Rows(run, ids)[l];
  }

  /** Two examples with one id are judged twice, queued twice, or both judged and queued. */
  lemma SharedIdIsUnclean(run: string, preds: seq<Example>, ok: seq<bool>, k: nat, l: nat)
    requires |ok| == |preds| && k < l < |preds| && preds[k].id == preds[l].id
    ensures !Clean(Rows(run, Ids(preds, ok, true)), Ids(preds, ok, false), run, preds)
  {
    var judged, letters := Ids(preds, ok, true), Ids(preds, ok, false);
    if ok[k] == ok[l] {
      IdsRepeat(preds, ok, ok[k], k, l);
      if ok[k] { RepeatedRows(run, judged); }
    } else {
      IdsMembers(preds, ok, true, preds[k].id);
      IdsMembers(preds, ok, false, preds[k].id);
      RowsMembers(run, judged, preds[k].id);
      var x :| 0 <= x < |letters| && letters[x] == preds[k].id;
      assert Judged(Rows(run, judged), run, letters[x]);
    }
  }

  /** Judging a fresh run leaves a clean state, whatever the judge answers, if and only if the example
      ids are unique. */
  lemma FirstJudgingIsClean(run: string, preds: seq<Example>, ok: seq<bool>)
    requires |ok| == |preds|
    ensures Clean(Rows(run, Ids(preds, ok, true)), Ids(preds, ok, false), run, preds) <==> UniqueIds(preds)
  {
    if UniqueIds(preds) {
      UniqueIdsAreClean(run, preds, ok);
    } else {
      var k, l :| 0 <= k < l < |preds| && preds[k].id == preds[l].id;
      SharedIdIsUnclean(run, preds, ok, k, l);
    }
  }

  lemma UniqueIdsAreClean(run: string, preds: seq<Example>, ok: seq<bool>)
    requires |ok| == |preds| && UniqueIds(preds)
    ensures Clean(Rows(run, Ids(preds, ok, true)), Ids(preds, ok, false), run, preds)
  {
    IdsDistinct(preds, ok, true);
    IdsDistinct(preds, ok, false);
    var judged, letters := Ids(preds, ok, true), Ids(preds, ok, false);
    forall k | 0 <= k < |letters|
      ensures HasId(preds, letters[k]) && !Judged(Rows(run, judged), run, letters[k])
    {
      IdsMembers(preds, ok, false, letters[k]);
      IdsMembers(preds, ok, true, letters[k]);
      RowsMembers(run, judged, letters[k]);
    }
  }
}
