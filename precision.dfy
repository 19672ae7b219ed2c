/**
 * calculate_precision of source/Evaluation/calc_precision.py and the
 * script-level loop of its copy source/calc_precision.py: a positional
 * comparison of predicted and ground-truth "retrieve" values, over the
 * pairs zip() yields.
 */
module Precision {
  import opened Wrappers
  import opened Json

  /** Python's == on decoded JSON values: booleans equal the ints 1 and 0, containers compare element-wise. */
  function PyEq(a: Value, b: Value): bool
    decreases a
  {
    match a
    case Null => b.Null?
    case Bool(x) => (b.Bool? && b.b == x) || (b.Int? && b.i == (if x then 1 else 0))
    case Int(i) => (b.Int? && b.i == i) || (b.Bool? && i == (if b.b then 1 else 0))
    case Str(s) => b.Str? && b.s == s
    case List(xs) => b.List? && |xs| == |b.items| && forall k :: 0 <= k < |xs| ==> PyEq(xs[k], b.items[k])
    case Dict(f) => b.Dict? && f.Keys == b.fields.Keys && forall k :: k in f ==> PyEq(f[k], b.fields[k])
  }

  /** One JSON object of the "answers" or "ground_truths" list. */
  type Entry = map<string, Value>

  /** The two lines printed for an unequal pair. */
  datatype Mismatch = Mismatch(qid: Value, predicted: Value, truth: Value)

  /**
   * How the run ends: the score (correct out of total, with the reported
   * mismatches), a KeyError on a compared entry, or the ZeroDivisionError
   * of an empty prediction list.
   */
  datatype Outcome = Scored(correct: nat, total: nat, mismatches: seq<Mismatch>) | KeyMissing | ZeroDivision

  function Min(a: nat, b: nat): nat {
    if a <= b then a else b
  }

  /** The pair raises a KeyError when compared (and, if unequal, reported). */
  predicate Broken(p: Entry, t: Entry) {
    "retrieve" !in p || "retrieve" !in t || (!PyEq(p["retrieve"], t["retrieve"]) && "qid" !in p)
  }

  /** The predicted "retrieve" value equals the true one. */
  predicate Matches(p: Entry, t: Entry) {
    "retrieve" in p && "retrieve" in t && PyEq(p["retrieve"], t["retrieve"])
  }

  /** What comparing one zipped pair does: count it, report it, or raise. */
  datatype Verdict = Hit | Miss(report: Mismatch) | Raises

  function Compare(p: Entry, t: Entry): (v: Verdict)
    ensures v.Raises? <==> Broken(p, t)
    ensures v.Hit? <==> !Broken(p, t) && Matches(p, t)
    ensures v.Miss? ==> v.report == Mismatch(p["qid"], p["retrieve"], t["retrieve"])
  {
    if Broken(p, t) then Raises
    else if PyEq(p["retrieve"], t["retrieve"]) then Hit
    else Miss(Mismatch(p["qid"], p["retrieve"], t["retrieve"]))
  }

  /** The verdicts of the pairs zip() yields. */
  function Verdicts(preds: seq<Entry>, truths: seq<Entry>): (vs: seq<Verdict>)
    ensures |vs| == Min(|preds|, |truths|)
  {
    seq(Min(|preds|, |truths|), i requires 0 <= i < Min(|preds|, |truths|) => Compare(preds[i], truths[i]))
  }

  /** The running tally over the verdicts: None once a comparison raises. */
  function Tally(vs: seq<Verdict>): Option<(nat, seq<Mismatch>)>
    decreases |vs|
  {
    if |vs| == 0 then Some((0, []))
    else
      match Tally(vs[..|vs| - 1])
      case None => None
      case Some(acc) =>
        match vs[|vs| - 1]
        case Raises => None
        case Hit => Some((acc.0 + 1, acc.1))
        case Miss(m) => Some((acc.0, acc.1 + [m]))
  }

  function Evaluate(preds: seq<Entry>, truths: seq<Entry>): Outcome {
    match Tally(Verdicts(preds, truths))
    case None => KeyMissing
    case Some(acc) => if |preds| == 0 then ZeroDivision else Scored(acc.0, |preds|, acc.1)
  }

  /** The positions whose predictions are right. */
  function Hits(vs: seq<Verdict>): set<int> {
    set i | 0 <= i < |vs| && vs[i].Hit?
  }

  lemma HitsSnoc(vs: seq<Verdict>, v: Verdict)
    ensures |Hits(vs + [v])| == |Hits(vs)| + (if v.Hit? then 1 else 0)
  {
    var h, h' := Hits(vs), Hits(vs + [v]);
    var extra: set<int> := if v.Hit? then {|vs|} else {};
    forall i | i in h'
      ensures i in h + extra
    {
      if i < |vs| {
        assert (vs + [v])[i] == vs[i];
      }
    }
    forall i | i in h + extra
      ensures i in h'
    {
      if i < |vs| {
        assert (vs + [v])[i] == vs[i];
      }
    }
    assert h' == h + extra;
    assert h * extra == {};
  }

  /**
   * Every compared pair is either counted correct or reported, and the
   * count is the number of positions whose values are equal.
   */
  lemma {:induction false} TallyCounts(vs: seq<Verdict>)
    requires Tally(vs).Some?
    ensures var acc := Tally(vs).value; acc.0 + |acc.1| == |vs| && acc.0 == |Hits(vs)|
    decreases |vs|
  {
    if |vs| > 0 {
      var init := vs[..|vs| - 1];
      TallyCounts(init);
      HitsSnoc(init, vs[|vs| - 1]);
      assert init + [vs[|vs| - 1]] == vs;
    }
  }

  /** The mismatches are reported in position order, one per unequal compared pair. */
  lemma {:induction false} TallyReports(vs: seq<Verdict>, i: nat)
    requires Tally(vs).Some?
    requires i < |vs|
    ensures !vs[i].Raises?
    ensures vs[i].Miss? ==> vs[i].report in Tally(vs).value.1
    decreases |vs|
  {
    var init := vs[..|vs| - 1];
    assert Tally(init).Some?;
    if i < |vs| - 1 {
      TallyReports(init, i);
    }
  }

  /** The tally breaks exactly when some compared pair raises. */
  lemma {:induction false} TallyBreaks(vs: seq<Verdict>)
    ensures Tally(vs).None? <==> exists i :: 0 <= i < |vs| && vs[i].Raises?
    decreases |vs|
  {
    if |vs| > 0 {
      var init := vs[..|vs| - 1];
      TallyBreaks(init);
      assert forall i :: 0 <= i < |init| ==> init[i] == vs[i];
    }
  }

  /**
   * The score: only min(|preds|, |truths|) pairs are compared, the
   * denominator is the number of predictions, and an empty prediction list
   * divides by zero.
   */
  lemma EvaluateScore(preds: seq<Entry>, truths: seq<Entry>)
    ensures Evaluate(preds, truths).ZeroDivision? <==> |preds| == 0
    ensures Evaluate(preds, truths).KeyMissing? <==>
      exists i :: 0 <= i < Min(|preds|, |truths|) && Broken(preds[i], truths[i])
    ensures Evaluate(preds, truths).Scored? ==>
      var r := Evaluate(preds, truths);
      && r.total == |preds|
      && r.correct + |r.mismatches| == Min(|preds|, |truths|)
      && r.correct == |set i | 0 <= i < Min(|preds|, |truths|) && Matches(preds[i], truths[i])|
      && r.correct <= r.total
  {
    var vs := Verdicts(preds, truths);
    TallyBreaks(vs);
    if |preds| == 0 {
      assert vs == [];
    }
    if Tally(vs).Some? {
      TallyCounts(vs);
      forall i | 0 <= i < |vs|
        ensures vs[i].Hit? <==> Matches(preds[i], truths[i])
      {
        assert vs[i] == Compare(preds[i], truths[i]);
        assert !vs[i].Raises? by {
          TallyReports(vs, i);
        }
      }
      assert Hits(vs) == set i | 0 <= i < Min(|preds|, |truths|) && Matches(preds[i], truths[i]);
    }
    assert (exists i :: 0 <= i < |vs| && vs[i].Raises?) <==>
      exists i :: 0 <= i < Min(|preds|, |truths|) && Broken(preds[i], truths[i]);
  }

  /** Every unequal compared pair is reported, with its qid and both values. */
  lemma EvaluateReports(preds: seq<Entry>, truths: seq<Entry>, i: nat)
    requires Evaluate(preds, truths).Scored? && i < Min(|preds|, |truths|)
    ensures "retrieve" in preds[i] && "retrieve" in truths[i]
    ensures !PyEq(preds[i]["retrieve"], truths[i]["retrieve"]) ==>
      "qid" in preds[i] && Mismatch(preds[i]["qid"], preds[i]["retrieve"], truths[i]["retrieve"]) in Evaluate(preds, truths).mismatches
  {
    var vs := Verdicts(preds, truths);
    TallyBreaks(vs);
    TallyReports(vs, i);
    assert vs[i] == Compare(preds[i], truths[i]);
  }

  lemma TallySnoc(vs: seq<Verdict>, k: nat)
    requires k < |vs|
    ensures Tally(vs[..k + 1]) == match Tally(vs[..k])
      case None => None
      case Some(acc) => (match vs[k] case Raises => None case Hit => Some((acc.0 + 1, acc.1)) case Miss(m) => Some((acc.0, acc.1 + [m])))
  {
    assert vs[..k + 1][..k] == vs[..k];
  }

  lemma {:induction false} TallyNonePersists(vs: seq<Verdict>, n: nat)
    requires n <= |vs| && Tally(vs[..n]).None?
    ensures Tally(vs).None?
    decreases |vs| - n
  {
    if n < |vs| {
      TallySnoc(vs, n);
      TallyNonePersists(vs, n + 1);
    } else {
      assert vs[..n] == vs;
    }
  }

  /** The loop: walk the zipped pairs, count equal ones and report the others. */
  method CalculatePrecision(preds: seq<Entry>, truths: seq<Entry>) returns (r: Outcome)
    ensures r == Evaluate(preds, truths)
  {
    ghost var vs := Verdicts(preds, truths);
    var correct := 0;
    var mismatches: seq<Mismatch> := [];
    var total := |preds|;
    var n := 0;
    var m := Min(|preds|, |truths|);
    while n < m
      invariant 0 <= n <= m
      invariant Tally(vs[..n]) == Some((correct, mismatches))
    {
      var pred, truth := preds[n], truths[n];
      TallySnoc(vs, n);
      assert vs[n] == Compare(pred, truth);
      if "retrieve" !in pred || "retrieve" !in truth {
        TallyNonePersists(vs, n + 1);
        return KeyMissing;
      }
      if PyEq(pred["retrieve"], truth["retrieve"]) {
        correct := correct + 1;
      } else {
        if "qid" !in pred {
          TallyNonePersists(vs, n + 1);
          return KeyMissing;
        }
        mismatches := mismatches + [Mismatch(pred["qid"], pred["retrieve"], truth["retrieve"])];
      }
      n := n + 1;
    }
    assert vs[..n] == vs;
    if total == 0 {
      return ZeroDivision;
    }
    return Scored(correct, total, mismatches);
  }
}
