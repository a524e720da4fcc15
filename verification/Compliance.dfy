/** Compliance scoring: half-weighted partial controls, rounding, and the regrouping of controls by domain. */
module Compliance {
  import opened Prelude
  import opened PyText

  datatype ControlStatus = Mapped | Partial | Gap | NotApplicable

  datatype Mapping = Mapping(domain: Str, description: Str, code: Str, status: ControlStatus)

  datatype Framework = Framework(code: Str, mappings: seq<Mapping>)

  /** The weight of a control in half points: mapped counts 1, partial 0.5. */
  function HalfPoints(m: Mapping): nat {
    match m.status case Mapped => 2 case Partial => 1 case Gap => 0 case NotApplicable => 0
  }

  function Counts(m: Mapping): nat {
    if m.status == NotApplicable then 0 else 1
  }

  function Sum(ms: seq<Mapping>, f: Mapping -> nat): nat {
    if ms == [] then 0 else Sum(ms[..|ms|-1], f) + f(ms[|ms|-1])
  }

  // ---------------------------------------------------------------- rounding

  /** The integer nearest to a/b, halves going to the even neighbour, as Python's `round` does. */
  function RoundHalfEven(a: nat, b: nat): nat
    requires b > 0
  {
    var q, r := a / b, a % b;
    if 2 * r < b then q else if 2 * r > b then q + 1 else if q % 2 == 0 then q else q + 1
  }

  lemma RoundNear(a: nat, b: nat)
    requires b > 0
    ensures 2 * a <= b * (2 * RoundHalfEven(a, b) + 1) && b * (2 * RoundHalfEven(a, b)) <= 2 * a + b
  {
    var q, r := a / b, a % b;
    assert a == b * q + r;
  }

  /** Exact halves go to the even neighbour. */
  lemma RoundTies(k: nat)
    ensures RoundHalfEven(2 * k + 1, 2) % 2 == 0 && (RoundHalfEven(2 * k + 1, 2) == k || RoundHalfEven(2 * k + 1, 2) == k + 1)
  {
    assert (2 * k + 1) / 2 == k && (2 * k + 1) % 2 == 1;
  }

  lemma RoundMonotone(a: nat, a': nat, b: nat)
    requires b > 0 && a <= a'
    ensures RoundHalfEven(a, b) <= RoundHalfEven(a', b)
  {
    var q, r, q', r' := a / b, a % b, a' / b, a' % b;
    assert a == b * q + r && a' == b * q' + r';
    if q' < q {
      assert b * (q' + 1) <= b * q by { MulMonotone(b, q' + 1, q); }
      assert false;
    }
  }

  lemma MulMonotone(b: nat, x: nat, y: nat)
    requires x <= y
    ensures b * x <= b * y
  {}

  lemma RoundExact(k: nat, b: nat)
    requires b > 0
    ensures RoundHalfEven(k * b, b) == k
  {
    DivExact(k, b);
  }

  lemma DivExact(k: nat, b: nat)
    requires b > 0
    ensures (k * b) / b == k && (k * b) % b == 0
  {
    var q, r := (k * b) / b, (k * b) % b;
    assert k * b == q * b + r;
    assert (k - q) * b == r;
    if k > q { MulMonotone(b, 1, k - q); }
  }

  // ---------------------------------------------------------------- the assessment score

  /** The score of `complete_assessment`, in tenths of a percent. */
  function Score(ms: seq<Mapping>): nat {
    var applicable := Sum(ms, Counts);
    if applicable == 0 then 0 else RoundHalfEven(500 * Sum(ms, HalfPoints), applicable)
  }

  lemma {:induction false} PointsBounded(ms: seq<Mapping>)
    ensures Sum(ms, HalfPoints) <= 2 * Sum(ms, Counts)
  {
    if ms != [] { PointsBounded(ms[..|ms|-1]); }
  }

  /** The score is a percentage. */
  lemma ScoreInRange(ms: seq<Mapping>)
    ensures 0 <= Score(ms) <= 1000
  {
    var n := Sum(ms, Counts);
    if n > 0 {
      PointsBounded(ms);
      RoundMonotone(500 * Sum(ms, HalfPoints), 1000 * n, n);
      RoundExact(1000, n);
    }
  }

  /** Rounding moves the score by at most half a tenth of a percent from the exact weighted share. */
  lemma ScoreNear(ms: seq<Mapping>)
    requires Sum(ms, Counts) > 0
    ensures var n, exact := Sum(ms, Counts), 500 * Sum(ms, HalfPoints);
            2 * exact <= n * (2 * Score(ms) + 1) && n * (2 * Score(ms)) <= 2 * exact + n
  {
    RoundNear(500 * Sum(ms, HalfPoints), Sum(ms, Counts));
  }

  lemma {:induction false} SumInsert(ms: seq<Mapping>, i: nat, m: Mapping, f: Mapping -> nat)
    requires i <= |ms|
    ensures Sum(ms[..i] + [m] + ms[i..], f) == Sum(ms, f) + f(m)
    decreases |ms|
  {
    var all := ms[..i] + [m] + ms[i..];
    if i == |ms| {
      assert all == ms + [m] && all[..|ms|] == ms;
    } else {
      var n := |ms| - 1;
      assert all[..|all|-1] == ms[..n][..i] + [m] + ms[..n][i..] && all[|all|-1] == ms[n];
      SumInsert(ms[..n], i, m, f);
    }
  }

  /** Controls that do not apply have no influence, wherever they appear. */
  lemma NotApplicableIgnored(ms: seq<Mapping>, i: nat, m: Mapping)
    requires i <= |ms| && m.status == NotApplicable
    ensures Score(ms[..i] + [m] + ms[i..]) == Score(ms)
  {
    SumInsert(ms, i, m, Counts);
    SumInsert(ms, i, m, HalfPoints);
  }

  lemma {:induction false} SumReplace(ms: seq<Mapping>, i: nat, m: Mapping, f: Mapping -> nat)
    requires i < |ms|
    ensures Sum(ms[i := m], f) + f(ms[i]) == Sum(ms, f) + f(m)
    decreases |ms|
  {
    var n := |ms| - 1;
    if i == n {
      assert ms[i := m][..n] == ms[..n];
    } else {
      assert ms[i := m][..n] == ms[..n][i := m];
      SumReplace(ms[..n], i, m, f);
    }
  }

  /** From a gap to partial to mapped. */
  predicate Improves(before: ControlStatus, after: ControlStatus) {
    (before == Gap && (after == Gap || after == Partial || after == Mapped)) ||
    (before == Partial && (after == Partial || after == Mapped)) || (before == Mapped && after == Mapped)
  }

  /** Improving an applicable control never lowers the score, rounding included. */
  lemma ScoreMonotone(ms: seq<Mapping>, i: nat, m: Mapping)
    requires i < |ms| && Improves(ms[i].status, m.status)
    ensures Score(ms) <= Score(ms[i := m])
  {
    SumReplace(ms, i, m, Counts);
    SumReplace(ms, i, m, HalfPoints);
    var n := Sum(ms, Counts);
    if n > 0 {
      RoundMonotone(500 * Sum(ms, HalfPoints), 500 * Sum(ms[i := m], HalfPoints), n);
    }
  }

  /** The sums the score is made of, in numbers of controls. */
  lemma {:induction false} SumsByStatus(ms: seq<Mapping>)
    ensures Sum(ms, HalfPoints) == 2 * Sum(ms, HasStatus(Mapped)) + Sum(ms, HasStatus(Partial))
    ensures Sum(ms, Counts) == |ms| - Sum(ms, HasStatus(NotApplicable))
    ensures Sum(ms, Counts) == Sum(ms, HasStatus(Mapped)) + Sum(ms, HasStatus(Partial)) + Sum(ms, HasStatus(Gap))
  {
    if ms != [] { SumsByStatus(ms[..|ms|-1]); }
  }

  /** The score is the share of mapped controls and half the partial ones among the applicable, to half a tenth of a percent. */
  lemma ScoreExact(ms: seq<Mapping>)
    ensures var mapped, partial, n := Sum(ms, HasStatus(Mapped)), Sum(ms, HasStatus(Partial)), |ms| - Sum(ms, HasStatus(NotApplicable));
            if n == 0 then Score(ms) == 0
            else 1000 * (2 * mapped + partial) <= 2 * n * Score(ms) + n && 2 * n * Score(ms) <= 1000 * (2 * mapped + partial) + n
  {
    SumsByStatus(ms);
    if Sum(ms, Counts) > 0 {
      ScoreNear(ms);
      hide Score;
      NearBound(Sum(ms, Counts), Score(ms), 500 * Sum(ms, HalfPoints));
    }
  }

  lemma NearBound(n: nat, score: nat, exact: nat)
    requires 2 * exact <= n * (2 * score + 1) && n * (2 * score) <= 2 * exact + n
    ensures 2 * exact <= 2 * n * score + n && 2 * n * score <= 2 * exact + n
  {
    assert n * (2 * score + 1) == n * (2 * score) + n;
    assert n * (2 * score) == 2 * n * score;
  }

  lemma {:induction false} Uniform(ms: seq<Mapping>, status: ControlStatus, other: ControlStatus)
    requires forall i :: 0 <= i < |ms| ==> ms[i].status == status
    ensures Sum(ms, HasStatus(other)) == if status == other then |ms| else 0
  {
    if ms != [] { Uniform(ms[..|ms|-1], status, other); }
  }

  /** All mapped is 100 percent, all partial 50, all gaps 0. */
  lemma UniformScore(ms: seq<Mapping>, status: ControlStatus)
    requires ms != [] && forall i :: 0 <= i < |ms| ==> ms[i].status == status
    ensures Score(ms) == match status case Mapped => 1000 case Partial => 500 case Gap => 0 case NotApplicable => 0
  {
    SumsByStatus(ms);
    Uniform(ms, status, Mapped);
    Uniform(ms, status, Partial);
    Uniform(ms, status, Gap);
    if status != NotApplicable {
      RoundExact(match status case Mapped => 1000 case Partial => 500 case _ => 0, |ms|);
    }
  }

  datatype AssessmentStatus = InProgress | Completed

  function HasStatus(status: ControlStatus): Mapping -> nat {
    (m: Mapping) => if m.status == status then 1 else 0
  }

  /** An assessment row; its completion fills the counts and the score once. */
  class Assessment {
    var status: AssessmentStatus
    var completedAt: Option<int>
    var totalControls: nat
    var mappedControls: nat
    var gapControls: nat
    var score: nat

    constructor ()
      ensures status == InProgress
    {
      status, completedAt, totalControls, mappedControls, gapControls, score := InProgress, None, 0, 0, 0, 0;
    }

    /** `complete_assessment`. */
    method Complete(ms: seq<Mapping>, now: int) returns (error: Option<Error>)
      modifies this
      ensures old(status) == Completed ==>
                error == Some(Conflict) && status == old(status) && completedAt == old(completedAt) && score == old(score) &&
                totalControls == old(totalControls) && mappedControls == old(mappedControls) && gapControls == old(gapControls)
      ensures old(status) != Completed ==>
                error == None && status == Completed && completedAt == Some(now) && score == Score(ms) && score <= 1000 &&
                totalControls == |ms| && mappedControls == Sum(ms, HasStatus(Mapped)) && gapControls == Sum(ms, HasStatus(Gap)) &&
                mappedControls + gapControls <= totalControls
    {
      if status == Completed { return Some(Conflict); }
      var applicable, weighted, mapped, gaps := 0, 0, 0, 0;
      for i := 0 to |ms|
        invariant applicable == Sum(ms[..i], Counts) && weighted == Sum(ms[..i], HalfPoints)
        invariant mapped == Sum(ms[..i], HasStatus(Mapped)) && gaps == Sum(ms[..i], HasStatus(Gap))
        invariant mapped + gaps <= i
      {
        assert ms[..i+1][..i] == ms[..i];
        if ms[i].status != NotApplicable { applicable := applicable + 1; }
        if ms[i].status == Mapped {
          mapped, weighted := mapped + 1, weighted + 2;
        } else if ms[i].status == Partial {
          weighted := weighted + 1;
        } else if ms[i].status == Gap {
          gaps := gaps + 1;
        }
      }
      assert ms[..|ms|] == ms;
      ScoreInRange(ms);
      status, completedAt, totalControls, mappedControls, gapControls := Completed, Some(now), |ms|, mapped, gaps;
      score := if applicable == 0 then 0 else RoundHalfEven(500 * weighted, applicable);
      error := None;
    }
  }

  // ---------------------------------------------------------------- sums over dictionaries

  ghost function SumOver<K(!new), V>(m: map<K, V>, f: V -> nat): nat
    decreases |m|
  {
    if m == map[] then 0
    else
      var k :| k in m;
      Smaller(m, k);
      f(m[k]) + SumOver(m - {k}, f)
  }

  lemma Smaller<K, V>(m: map<K, V>, k: K)
    requires k in m
    ensures |m - {k}| < |m|
  {
    assert (m - {k}).Keys == m.Keys - {k};
    assert |m.Keys| == |m| && |(m - {k}).Keys| == |m - {k}|;
  }

  /** The sum does not depend on the order keys are taken in. */
  lemma {:induction false} SumRemove<K(!new), V>(m: map<K, V>, f: V -> nat, k: K)
    requires k in m
    ensures SumOver(m, f) == f(m[k]) + SumOver(m - {k}, f)
    decreases |m|
  {
    var j :| j in m && SumOver(m, f) == f(m[j]) + SumOver(m - {j}, f);
    if j != k {
      Smaller(m, j);
      SumRemove(m - {j}, f, k);
      Smaller(m, k);
      SumRemove(m - {k}, f, j);
      assert m - {j} - {k} == m - {k} - {j};
    }
  }

  lemma SumUpdate<K(!new), V>(m: map<K, V>, f: V -> nat, k: K, v: V)
    ensures SumOver(m[k := v], f) + (if k in m then f(m[k]) else 0) == SumOver(m, f) + f(v)
  {
    SumRemove(m[k := v], f, k);
    if k in m {
      SumRemove(m, f, k);
      assert m[k := v] - {k} == m - {k};
    } else {
      assert m[k := v] - {k} == m;
    }
  }

  // ---------------------------------------------------------------- coverage by domain

  type PerFramework = map<Str, Mapping>

  type ByDomain = map<Str, PerFramework>

  function Put(d: ByDomain, code: Str, m: Mapping): ByDomain {
    var row: PerFramework := if m.domain in d then d[m.domain] else map[];
    d[m.domain := row[code := m]]
  }

  function PutAll(d: ByDomain, code: Str, ms: seq<Mapping>): ByDomain {
    if ms == [] then d else Put(PutAll(d, code, ms[..|ms|-1]), code, ms[|ms|-1])
  }

  function Fill(fs: seq<Framework>): ByDomain {
    if fs == [] then map[] else PutAll(Fill(fs[..|fs|-1]), fs[|fs|-1].code, fs[|fs|-1].mappings)
  }

  /** The nested loops of `_build_control_coverage` that fill the dictionary of dictionaries. */
  method BuildCoverage(fs: seq<Framework>) returns (byDomain: ByDomain)
    ensures byDomain == Fill(fs)
  {
    byDomain := map[];
    for i := 0 to |fs|
      invariant byDomain == Fill(fs[..i])
    {
      var ms := fs[i].mappings;
      for j := 0 to |ms|
        invariant byDomain == PutAll(Fill(fs[..i]), fs[i].code, ms[..j])
      {
        assert ms[..j+1][..j] == ms[..j];
        byDomain := Put(byDomain, fs[i].code, ms[j]);
      }
      assert ms[..|ms|] == ms && fs[..i+1][..i] == fs[..i];
    }
    assert fs[..|fs|] == fs;
  }

  function TotalOf(fs: seq<Framework>, f: Mapping -> nat): nat {
    if fs == [] then 0 else TotalOf(fs[..|fs|-1], f) + Sum(fs[|fs|-1].mappings, f)
  }

  ghost function RowSum(f: Mapping -> nat): PerFramework -> nat {
    row => SumOver(row, f)
  }

  ghost function GrandTotal(d: ByDomain, f: Mapping -> nat): nat {
    SumOver(d, RowSum(f))
  }

  /** The unique constraints: one framework per code, one mapping per framework and domain. */
  ghost predicate UniqueCells(fs: seq<Framework>) {
    (forall i, j :: 0 <= i < j < |fs| ==> fs[i].code != fs[j].code) &&
    forall i :: 0 <= i < |fs| ==> UniqueDomains(fs[i].mappings)
  }

  ghost predicate UniqueDomains(ms: seq<Mapping>) {
    forall i, j :: 0 <= i < j < |ms| ==> ms[i].domain != ms[j].domain
  }

  ghost predicate HasCell(d: ByDomain, domain: Str, code: Str) {
    domain in d && code in d[domain]
  }

  /** Filling an empty cell adds the mapping's share to the grand total. */
  lemma PutTotal(d: ByDomain, code: Str, m: Mapping, f: Mapping -> nat)
    requires !HasCell(d, m.domain, code)
    ensures GrandTotal(Put(d, code, m), f) == GrandTotal(d, f) + f(m)
  {
    var empty: PerFramework := map[];
    var row := if m.domain in d then d[m.domain] else empty;
    SumUpdate(d, RowSum(f), m.domain, row[code := m]);
    SumUpdate(row, f, code, m);
    assert SumOver(empty, f) == 0;
  }

  lemma {:induction false} PutAllCells(d: ByDomain, code: Str, ms: seq<Mapping>, domain: Str, c: Str)
    ensures HasCell(PutAll(d, code, ms), domain, c) <==>
            HasCell(d, domain, c) || (c == code && exists i :: 0 <= i < |ms| && ms[i].domain == domain)
  {
    if ms != [] {
      var n := |ms| - 1;
      PutAllCells(d, code, ms[..n], domain, c);
      if i :| 0 <= i < |ms| && ms[i].domain == domain {
        assert i < n ==> ms[..n][i].domain == domain;
      }
    }
  }

  lemma {:induction false} PutAllTotal(d: ByDomain, code: Str, ms: seq<Mapping>, f: Mapping -> nat)
    requires UniqueDomains(ms) && forall domain :: !HasCell(d, domain, code)
    ensures GrandTotal(PutAll(d, code, ms), f) == GrandTotal(d, f) + Sum(ms, f)
  {
    hide GrandTotal;
    hide Put;
    if ms != [] {
      var n := |ms| - 1;
      PutAllTotal(d, code, ms[..n], f);
      PutAllCells(d, code, ms[..n], ms[n].domain, code);
      PutTotal(PutAll(d, code, ms[..n]), code, ms[n], f);
    }
  }

  lemma {:induction false} FillCells(fs: seq<Framework>, domain: Str, c: Str)
    requires HasCell(Fill(fs), domain, c)
    ensures exists i :: 0 <= i < |fs| && fs[i].code == c
  {
    if fs != [] {
      var n := |fs| - 1;
      PutAllCells(Fill(fs[..n]), fs[n].code, fs[n].mappings, domain, c);
      if HasCell(Fill(fs[..n]), domain, c) {
        FillCells(fs[..n], domain, c);
        var i :| 0 <= i < n && fs[..n][i].code == c;
        assert fs[i].code == c;
      }
    }
  }

  lemma {:induction false} PutAllFrame(d: ByDomain, code: Str, ms: seq<Mapping>, domain: Str, c: Str)
    requires HasCell(d, domain, c) && c != code
    ensures HasCell(PutAll(d, code, ms), domain, c) && PutAll(d, code, ms)[domain][c] == d[domain][c]
  {
    if ms != [] { PutAllFrame(d, code, ms[..|ms|-1], domain, c); }
  }

  lemma {:induction false} PutAllAt(d: ByDomain, code: Str, ms: seq<Mapping>, j: nat)
    requires UniqueDomains(ms) && j < |ms|
    ensures HasCell(PutAll(d, code, ms), ms[j].domain, code) && PutAll(d, code, ms)[ms[j].domain][code] == ms[j]
  {
    var n := |ms| - 1;
    if j < n {
      assert UniqueDomains(ms[..n]) && ms[..n][j] == ms[j] && ms[n].domain != ms[j].domain;
      PutAllAt(d, code, ms[..n], j);
    }
  }

  /** Every framework's mapping is found under its domain and the framework's code. */
  lemma {:induction false} CellIs(fs: seq<Framework>, i: nat, j: nat)
    requires UniqueCells(fs) && i < |fs| && j < |fs[i].mappings|
    ensures var m := fs[i].mappings[j];
            HasCell(Fill(fs), m.domain, fs[i].code) && Fill(fs)[m.domain][fs[i].code] == m
  {
    var n := |fs| - 1;
    if i == n {
      PutAllAt(Fill(fs[..n]), fs[n].code, fs[n].mappings, j);
    } else {
      assert fs[..n][i] == fs[i];
      CellIs(fs[..n], i, j);
      PutAllFrame(Fill(fs[..n]), fs[n].code, fs[n].mappings, fs[i].mappings[j].domain, fs[i].code);
    }
  }

  /** Regrouping conserves every total: summed by domain or summed by framework, the result is the same. */
  lemma {:induction false} RegroupingConserves(fs: seq<Framework>, f: Mapping -> nat)
    requires UniqueCells(fs)
    ensures GrandTotal(Fill(fs), f) == TotalOf(fs, f)
  {
    if fs != [] {
      var n := |fs| - 1;
      RegroupingConserves(fs[..n], f);
      forall domain ensures !HasCell(Fill(fs[..n]), domain, fs[n].code) {
        if HasCell(Fill(fs[..n]), domain, fs[n].code) {
          FillCells(fs[..n], domain, fs[n].code);
        }
      }
      PutAllTotal(Fill(fs[..n]), fs[n].code, fs[n].mappings, f);
    }
  }

  // ---------------------------------------------------------------- coverage rows

  datatype Row = Row(domain: Str, applicable: nat, halfPoints: nat, percent: nat)

  ghost function RowOf(domain: Str, per: PerFramework): Row {
    var n, w := SumOver(per, Counts), SumOver(per, HalfPoints);
    Row(domain, n, w, if n == 0 then 0 else RoundHalfEven(50 * w, n))
  }

  /** Sums over a dictionary add up like the things summed. */
  lemma {:induction false} SumOverAdds(per: PerFramework, f: Mapping -> nat, g: Mapping -> nat, h: Mapping -> nat)
    requires forall m :: f(m) == g(m) + h(m)
    ensures SumOver(per, f) == SumOver(per, g) + SumOver(per, h)
    decreases |per|
  {
    if per != map[] {
      var k :| k in per;
      Smaller(per, k);
      SumOverAdds(per - {k}, f, g, h);
      SumRemove(per, f, k);
      SumRemove(per, g, k);
      SumRemove(per, h, k);
    }
  }

  function Covered(m: Mapping): nat { HasStatus(Mapped)(m) + HasStatus(Partial)(m) }

  lemma DictSums(per: PerFramework)
    ensures SumOver(per, HalfPoints) == 2 * SumOver(per, HasStatus(Mapped)) + SumOver(per, HasStatus(Partial))
    ensures SumOver(per, Counts) == SumOver(per, HasStatus(Mapped)) + SumOver(per, HasStatus(Partial)) + SumOver(per, HasStatus(Gap))
  {
    hide SumOver;
    SumOverAdds(per, Covered, HasStatus(Mapped), HasStatus(Partial));
    SumOverAdds(per, HalfPoints, Covered, HasStatus(Mapped));
    SumOverAdds(per, Counts, Covered, HasStatus(Gap));
  }

  /** A row's percentage is the share of mapped frameworks and half the partial ones among the applicable, to half a percent. */
  lemma PercentExact(domain: Str, per: PerFramework)
    ensures var r, mapped, partial := RowOf(domain, per), SumOver(per, HasStatus(Mapped)), SumOver(per, HasStatus(Partial));
            r.domain == domain && r.applicable == mapped + partial + SumOver(per, HasStatus(Gap)) &&
            if r.applicable == 0 then r.percent == 0
            else var n, exact := r.applicable, 100 * (2 * mapped + partial);
                 exact <= 2 * n * r.percent + n && 2 * n * r.percent <= exact + n
  {
    DictSums(per);
    var n, w := SumOver(per, Counts), SumOver(per, HalfPoints);
    if n > 0 {
      RoundNear(50 * w, n);
      hide RoundHalfEven;
      NearBound(n, RoundHalfEven(50 * w, n), 50 * w);
    }
  }

  /** The rows, sorted by domain. */
  ghost function Rows(d: ByDomain): seq<Row> {
    RowsFor(d, SortedKeys(d.Keys))
  }

  ghost function RowsFor(d: ByDomain, keys: seq<Str>): seq<Row>
    requires forall k :: k in keys ==> k in d
  {
    if keys == [] then []
    else
      assert keys[0] in keys;
      [RowOf(keys[0], d[keys[0]])] + RowsFor(d, keys[1..])
  }

  ghost function SumRows(rows: seq<Row>, g: Row -> nat): nat {
    if rows == [] then 0 else g(rows[0]) + SumRows(rows[1..], g)
  }

  /** The part of a dictionary already visited. */
  ghost function Within(per: PerFramework, done: set<Str>): PerFramework {
    map c | c in per && c in done :: per[c]
  }

  lemma SumOverStep(per: PerFramework, done: set<Str>, k: Str, f: Mapping -> nat)
    requires k in per && k !in done
    ensures SumOver(Within(per, done + {k}), f) == SumOver(Within(per, done), f) + f(per[k])
  {
    var before := Within(per, done);
    assert Within(per, done + {k}) == before[k := per[k]];
    SumUpdate(before, f, k, per[k]);
  }

  /** One row: the filter, the weighted sum and the rounding, over the dictionary's values in any order. */
  method CoverageRow(domain: Str, per: PerFramework) returns (r: Row)
    ensures r == RowOf(domain, per)
  {
    var applicable, weighted := 0, 0;
    var todo, done := per.Keys, {};
    assert Within(per, done) == map[];
    while todo != {}
      invariant forall c :: c in per <==> c in todo || c in done
      invariant forall c :: !(c in todo && c in done)
      invariant applicable == SumOver(Within(per, done), Counts)
      invariant weighted == SumOver(Within(per, done), HalfPoints)
      decreases todo
    {
      var k :| k in todo;
      SumOverStep(per, done, k, Counts);
      SumOverStep(per, done, k, HalfPoints);
      if per[k].status != NotApplicable {
        applicable := applicable + 1;
        if per[k].status == Mapped || per[k].status == Partial {
          weighted := weighted + (if per[k].status == Mapped then 2 else 1);
        }
      }
      todo, done := todo - {k}, done + {k};
    }
    assert Within(per, done) == per;
    r := Row(domain, applicable, weighted, if applicable == 0 then 0 else RoundHalfEven(50 * weighted, applicable));
  }

  lemma {:induction false} RowsForSnoc(d: ByDomain, keys: seq<Str>)
    requires keys != [] && forall k :: k in keys ==> k in d
    ensures keys[|keys|-1] in d
    ensures RowsFor(d, keys) == RowsFor(d, keys[..|keys|-1]) + [RowOf(keys[|keys|-1], d[keys[|keys|-1]])]
  {
    hide RowOf;
    var n := |keys| - 1;
    assert keys[n] in keys;
    if n > 0 {
      RowsForSnoc(d, keys[1..]);
      assert keys[1..][..n-1] == keys[..n][1..];
    }
  }

  /** The rows of the first domains. */
  ghost function FirstRows(d: ByDomain, keys: seq<Str>, i: nat): seq<Row>
    requires i <= |keys| && forall k :: k in keys ==> k in d
  {
    RowsFor(d, keys[..i])
  }

  lemma FirstRowsStep(d: ByDomain, keys: seq<Str>, i: nat)
    requires i < |keys| && forall k :: k in keys ==> k in d
    ensures keys[i] in d && FirstRows(d, keys, i + 1) == FirstRows(d, keys, i) + [RowOf(keys[i], d[keys[i]])]
  {
    hide RowOf;
    hide RowsFor;
    assert keys[i] in keys;
    assert keys[..i+1][..i] == keys[..i];
    RowsForSnoc(d, keys[..i+1]);
  }

  lemma AllRows(d: ByDomain)
    ensures FirstRows(d, SortedKeys(d.Keys), 0) == [] && FirstRows(d, SortedKeys(d.Keys), |SortedKeys(d.Keys)|) == Rows(d)
  {
    var keys := SortedKeys(d.Keys);
    assert keys[..0] == [] && keys[..|keys|] == keys;
  }

  /** `_build_control_coverage`. */
  method BuildControlCoverage(fs: seq<Framework>) returns (rows: seq<Row>)
    ensures rows == Rows(Fill(fs))
  {
    hide RowOf;
    hide Fill;
    hide FirstRows;
    hide Rows;
    hide Ascending;
    var d := BuildCoverage(fs);
    var keys := SortedKeys(d.Keys);
    AllRows(d);
    rows := [];
    for i := 0 to |keys|
      invariant rows == FirstRows(d, keys, i)
    {
      FirstRowsStep(d, keys, i);
      var r := CoverageRow(keys[i], d[keys[i]]);
      rows := rows + [r];
    }
  }

  lemma {:induction false} RowsSum(d: ByDomain, keys: seq<Str>, f: Mapping -> nat, g: Row -> nat)
    requires Ascending(keys) && (forall k :: k in keys <==> k in d)
    requires forall k :: k in d ==> g(RowOf(k, d[k])) == SumOver(d[k], f)
    ensures SumRows(RowsFor(d, keys), g) == GrandTotal(d, f)
    decreases |keys|
  {
    hide RowOf;
    if keys == [] {
      assert d == map[];
    } else {
      var k, rest := keys[0], keys[1..];
      assert k in keys && keys == [k] + rest;
      LessTotal(k, k);
      assert forall i :: 0 < i < |keys| ==> Less(keys[0], keys[i]);
      assert k !in rest;
      var d' := d - {k};
      RowsSum(d', rest, f, g);
      SumRemove(d, RowSum(f), k);
      RowsForSubset(d, d', rest);
      FirstRow(d, keys, g);
    }
  }

  lemma FirstRow(d: ByDomain, keys: seq<Str>, g: Row -> nat)
    requires keys != [] && forall k :: k in keys ==> k in d
    ensures keys[0] in d && SumRows(RowsFor(d, keys), g) == g(RowOf(keys[0], d[keys[0]])) + SumRows(RowsFor(d, keys[1..]), g)
  {
    hide RowOf;
    assert keys[0] in keys;
    assert RowsFor(d, keys)[1..] == RowsFor(d, keys[1..]);
  }

  lemma {:induction false} RowsForSubset(d: ByDomain, d': ByDomain, keys: seq<Str>)
    requires forall k :: k in keys ==> k in d && k in d' && d[k] == d'[k]
    ensures RowsFor(d, keys) == RowsFor(d', keys)
  {
    if keys != [] {
      assert keys[0] in keys;
      RowsForSubset(d, d', keys[1..]);
    }
  }

  /** The coverage rows add up to the frameworks: applicable controls and weight alike. */
  lemma RowsAddUp(fs: seq<Framework>)
    requires UniqueCells(fs)
    ensures SumRows(Rows(Fill(fs)), (r: Row) => r.applicable) == TotalOf(fs, Counts)
    ensures SumRows(Rows(Fill(fs)), (r: Row) => r.halfPoints) == TotalOf(fs, HalfPoints)
  {
    var d := Fill(fs);
    RowsSum(d, SortedKeys(d.Keys), Counts, (r: Row) => r.applicable);
    RowsSum(d, SortedKeys(d.Keys), HalfPoints, (r: Row) => r.halfPoints);
    RegroupingConserves(fs, Counts);
    RegroupingConserves(fs, HalfPoints);
  }
}
