/**
 Page scores (`ScoreCalculator.calculate_score`) and their weighted mean over the site, in which the
 homepage counts twice.  Both are means: neither can leave the range of what is averaged, and
 neither rises when a verdict turns from pass to fail.
 */
module OverallScore {
  import opened AuditScores

  // ------------------------------------------------------------- weighted means

  datatype Weighted = Weighted(score: real, weight: real)

  function SumWeights(xs: seq<Weighted>): real {
    if xs == [] then 0.0 else SumWeights(xs[..|xs| - 1]) + xs[|xs| - 1].weight
  }

  function SumScores(xs: seq<Weighted>): real {
    if xs == [] then 0.0
    else SumScores(xs[..|xs| - 1]) + xs[|xs| - 1].score * xs[|xs| - 1].weight
  }

  ghost predicate Positive(xs: seq<Weighted>) {
    forall i :: 0 <= i < |xs| ==> xs[i].weight > 0.0
  }

  lemma {:induction false} WeightedSumBounds(xs: seq<Weighted>, lo: real, hi: real)
    requires Positive(xs) && forall i :: 0 <= i < |xs| ==> lo <= xs[i].score <= hi
    ensures lo * SumWeights(xs) <= SumScores(xs) <= hi * SumWeights(xs)
    ensures xs != [] ==> SumWeights(xs) > 0.0
  {
    if xs != [] {
      var front, last := xs[..|xs| - 1], xs[|xs| - 1];
      var sum, weight := SumScores(front), SumWeights(front);
      WeightedSumBounds(front, lo, hi);
      ScaleBounds(last.score, last.weight, lo, hi);
      Distribute(lo, weight, last.weight);
      Distribute(hi, weight, last.weight);
      assert SumWeights(xs) == weight + last.weight;
      assert SumScores(xs) == sum + last.score * last.weight;
      hide SumScores, SumWeights;
      AddBounds(lo * weight, sum, hi * weight, lo * last.weight, last.score * last.weight, hi * last.weight);
      if |xs| == 1 {
        assert xs[..0] == [];
      }
    }
  }

  lemma WeightedMeanBetween(xs: seq<Weighted>, lo: real, hi: real)
    requires xs != [] && Positive(xs) && forall i :: 0 <= i < |xs| ==> lo <= xs[i].score <= hi
    ensures SumWeights(xs) > 0.0 && lo <= SumScores(xs) / SumWeights(xs) <= hi
  {
    WeightedSumBounds(xs, lo, hi);
    MeanAtLeast(SumScores(xs), SumWeights(xs), lo);
    MeanAtMost(SumScores(xs), SumWeights(xs), hi);
  }

  lemma ScaleBounds(x: real, w: real, lo: real, hi: real)
    requires w > 0.0 && lo <= x <= hi
    ensures lo * w <= x * w <= hi * w
  {
  }

  lemma AddBounds(lo: real, x: real, hi: real, lo': real, x': real, hi': real)
    requires lo <= x <= hi && lo' <= x' <= hi'
    ensures lo + lo' <= x + x' <= hi + hi'
  {
  }

  lemma Distribute(c: real, a: real, b: real)
    ensures c * (a + b) == c * a + c * b
  {
  }

  lemma {:induction false} WeightedSumMonotone(xs: seq<Weighted>, ys: seq<Weighted>)
    requires |xs| == |ys| && Positive(xs)
    requires forall i :: 0 <= i < |xs| ==> ys[i].weight == xs[i].weight && ys[i].score <= xs[i].score
    ensures SumWeights(ys) == SumWeights(xs) && SumScores(ys) <= SumScores(xs)
  {
    if xs != [] {
      var x, y := xs[|xs| - 1], ys[|ys| - 1];
      WeightedSumMonotone(xs[..|xs| - 1], ys[..|ys| - 1]);
      assert y.score * x.weight <= x.score * x.weight;
    }
  }

  // ------------------------------------------------------------- the site

  function Overall(round: real -> real, pages: seq<Weighted>): real {
    if pages == [] || SumWeights(pages) == 0.0 then 0.0 else round(SumScores(pages) / SumWeights(pages))
  }

  /** The aggregation of `build`: each page's score, and whether its group holds a depth-0 page. */
  method OverallOfPages(round: real -> real, scores: seq<real>, homepage: seq<bool>) returns (overall: real)
    requires |scores| == |homepage|
    ensures overall == Overall(round, WeightedPages(scores, homepage))
  {
    var totalWeight, weighted := 0.0, 0.0;
    for i := 0 to |scores|
      invariant totalWeight == SumWeights(WeightedPages(scores, homepage)[..i])
      invariant weighted == SumScores(WeightedPages(scores, homepage)[..i])
    {
      var weight := if homepage[i] then 2.0 else 1.0;
      assert WeightedPages(scores, homepage)[..i + 1][..i] == WeightedPages(scores, homepage)[..i];
      totalWeight := totalWeight + weight;
      weighted := weighted + scores[i] * weight;
    }
    assert WeightedPages(scores, homepage)[..|scores|] == WeightedPages(scores, homepage);
    overall := if |scores| > 0 && totalWeight != 0.0 then round(weighted / totalWeight) else 0.0;
  }

  function WeightedPages(scores: seq<real>, homepage: seq<bool>): seq<Weighted>
    requires |scores| == |homepage|
  {
    seq(|scores|, i requires 0 <= i < |scores| => Weighted(scores[i], if homepage[i] then 2.0 else 1.0))
  }

  /** Rounding cannot leave an interval whose ends are whole tenths. */
  lemma RoundStaysBetween(round: real -> real, x: real, lo: int, hi: int)
    requires IsRounding(round)
    ensures Tenth(lo) <= x <= Tenth(hi) ==> Tenth(lo) <= round(x) <= Tenth(hi)
  {
    assert round(Tenth(lo)) == Tenth(lo) && round(Tenth(hi)) == Tenth(hi);
  }

  /** The overall score lies between the smallest and the largest page score, rounding included. */
  lemma OverallBetweenPages(round: real -> real, scores: seq<real>, homepage: seq<bool>, lo: int, hi: int)
    requires IsRounding(round) && |scores| == |homepage| && scores != []
    requires forall i :: 0 <= i < |scores| ==> Tenth(lo) <= scores[i] <= Tenth(hi)
    ensures Tenth(lo) <= Overall(round, WeightedPages(scores, homepage)) <= Tenth(hi)
  {
    var pages := WeightedPages(scores, homepage);
    WeightedMeanBetween(pages, Tenth(lo), Tenth(hi));
    RoundStaysBetween(round, SumScores(pages) / SumWeights(pages), lo, hi);
  }

  /** The homepage weighs exactly as much as if it were listed twice as an ordinary page. */
  lemma HomepageCountsTwice(round: real -> real, scores: seq<real>, homepage: seq<bool>, i: nat)
    requires |scores| == |homepage| && i < |scores| && homepage[i]
    ensures Overall(round, WeightedPages(scores, homepage)) ==
            Overall(round, WeightedPages(scores + [scores[i]], homepage[i := false] + [false]))
  {
    var xs, ys := WeightedPages(scores, homepage), WeightedPages(scores, homepage[i := false]);
    assert WeightedPages(scores + [scores[i]], homepage[i := false] + [false]) == ys + [Weighted(scores[i], 1.0)];
    assert (ys + [Weighted(scores[i], 1.0)])[..|ys|] == ys;
    assert ys == xs[i := Weighted(scores[i], 1.0)];
    ReweighOne(xs, i, 1.0);
  }

  lemma {:induction false} ReweighOne(xs: seq<Weighted>, i: nat, weight: real)
    requires i < |xs|
    ensures var ys := xs[i := Weighted(xs[i].score, weight)];
            && SumWeights(ys) == SumWeights(xs) - xs[i].weight + weight
            && SumScores(ys) == SumScores(xs) - xs[i].score * xs[i].weight + xs[i].score * weight
  {
    var ys, n := xs[i := Weighted(xs[i].score, weight)], |xs| - 1;
    if i < n {
      ReweighOne(xs[..n], i, weight);
      assert ys[..n] == xs[..n][i := Weighted(xs[i].score, weight)];
    } else {
      assert ys[..n] == xs[..n];
    }
  }

  /** Lowering page scores never raises the overall score. */
  lemma OverallMonotone(round: real -> real, scores: seq<real>, lower: seq<real>, homepage: seq<bool>)
    requires IsRounding(round) && |scores| == |lower| == |homepage|
    requires forall i :: 0 <= i < |scores| ==> lower[i] <= scores[i]
    ensures Overall(round, WeightedPages(lower, homepage)) <= Overall(round, WeightedPages(scores, homepage))
  {
    var xs, ys := WeightedPages(scores, homepage), WeightedPages(lower, homepage);
    WeightedSumMonotone(xs, ys);
    WeightPositive(xs);
    if scores != [] {
      DivideMonotone(SumScores(ys), SumScores(xs), SumWeights(xs));
    }
  }

  lemma {:induction false} WeightPositive(xs: seq<Weighted>)
    requires Positive(xs)
    ensures xs != [] ==> SumWeights(xs) > 0.0
    ensures SumWeights(xs) >= 0.0
  {
    if xs != [] {
      WeightPositive(xs[..|xs| - 1]);
    }
  }

  // ------------------------------------------------------------- one page

  /** A rule result as the calculator reads it; `impact` is a penalty when negative. */
  datatype Result = Result(category: string, passed: bool, impact: real)

  /** The categories in order of first appearance. */
  function Categories(rs: seq<Result>): seq<string> {
    if rs == [] then []
    else
      var earlier, c := Categories(rs[..|rs| - 1]), rs[|rs| - 1].category;
      if c in earlier then earlier else earlier + [c]
  }

  /** 100 plus the bonus of each passed and the impact of each failed result of the category. */
  function RawScore(rs: seq<Result>, category: string): real {
    if rs == [] then 100.0
    else
      var r := rs[|rs| - 1];
      RawScore(rs[..|rs| - 1], category) +
      if r.category != category || (r.passed && r.impact <= 0.0) then 0.0 else r.impact
  }

  function Clamp(x: real): real {
    if x < 0.0 then 0.0 else if x > 100.0 then 100.0 else x
  }

  function CategoryScoreOnPage(round: real -> real, rs: seq<Result>, category: string): real {
    round(Clamp(RawScore(rs, category)))
  }

  const DEFAULT_WEIGHT := 0.1

  function WeightOf(weights: map<string, real>, category: string): real {
    if category in weights then weights[category] else DEFAULT_WEIGHT
  }

  function CategoryScores(round: real -> real, weights: map<string, real>, rs: seq<Result>, cats: seq<string>): seq<Weighted> {
    seq(|cats|, i requires 0 <= i < |cats| =>
      Weighted(CategoryScoreOnPage(round, rs, cats[i]), WeightOf(weights, cats[i])))
  }

  /** `overall_score` of `calculate_score`. */
  function PageScore(round: real -> real, weights: map<string, real>, rs: seq<Result>): real {
    var xs := CategoryScores(round, weights, rs, Categories(rs));
    if SumWeights(xs) > 0.0 then round(Clamp(SumScores(xs) / SumWeights(xs))) else round(0.0)
  }

  /** The bounds hold for any weights, even negative ones, because the mean is clamped. */
  lemma PageScoreInRange(round: real -> real, weights: map<string, real>, rs: seq<Result>)
    requires IsRounding(round)
    ensures 0.0 <= PageScore(round, weights, rs) <= 100.0
  {
    var xs := CategoryScores(round, weights, rs, Categories(rs));
    RoundBounds(round, Clamp(SumScores(xs) / (if SumWeights(xs) > 0.0 then SumWeights(xs) else 1.0)));
    RoundBounds(round, 0.0);
  }

  ghost predicate PositiveWeights(weights: map<string, real>) {
    forall c :: c in weights ==> weights[c] > 0.0
  }

  /** With positive weights the clamp never acts, and the page score lies between its category scores. */
  lemma PageBetweenCategories(round: real -> real, weights: map<string, real>, rs: seq<Result>, lo: int, hi: int)
    requires IsRounding(round) && PositiveWeights(weights) && rs != []
    requires forall c :: c in Categories(rs) ==> Tenth(lo) <= CategoryScoreOnPage(round, rs, c) <= Tenth(hi)
    ensures Tenth(lo) <= PageScore(round, weights, rs) <= Tenth(hi)
    ensures var xs := CategoryScores(round, weights, rs, Categories(rs));
            SumWeights(xs) > 0.0 && 0.0 <= SumScores(xs) / SumWeights(xs) <= 100.0
  {
    var cats := Categories(rs);
    var xs := CategoryScores(round, weights, rs, cats);
    forall i | 0 <= i < |xs| ensures 0.0 <= xs[i].score <= 100.0 && Tenth(lo) <= xs[i].score <= Tenth(hi) {
      assert cats[i] in cats;
      RoundBounds(round, Clamp(RawScore(rs, cats[i])));
    }
    assert |xs| == |cats| && Positive(xs);
    hide CategoryScores, CategoryScoreOnPage;
    WeightedMeanBetween(xs, 0.0, 100.0);
    WeightedMeanBetween(xs, Tenth(lo), Tenth(hi));
    RoundStaysBetween(round, SumScores(xs) / SumWeights(xs), lo, hi);
  }

  /** `worse` is `rs` with some verdicts turned from pass to fail. */
  ghost predicate MoreFailures(rs: seq<Result>, worse: seq<Result>) {
    && |worse| == |rs|
    && forall i :: 0 <= i < |rs| ==>
         && worse[i].category == rs[i].category && worse[i].impact == rs[i].impact
         && (worse[i].passed ==> rs[i].passed)
  }

  lemma {:induction false} MoreFailuresScore(rs: seq<Result>, worse: seq<Result>, category: string)
    requires MoreFailures(rs, worse)
    ensures Categories(worse) == Categories(rs)
    ensures RawScore(worse, category) <= RawScore(rs, category)
  {
    if rs != [] {
      MoreFailuresScore(rs[..|rs| - 1], worse[..|rs| - 1], category);
      assert worse[|rs| - 1].category == rs[|rs| - 1].category;
    }
  }

  /** Turning verdicts of a page from pass to fail never raises its score. */
  lemma PageScoreMonotone(round: real -> real, weights: map<string, real>, rs: seq<Result>, worse: seq<Result>)
    requires IsRounding(round) && PositiveWeights(weights) && MoreFailures(rs, worse)
    ensures PageScore(round, weights, worse) <= PageScore(round, weights, rs)
  {
    MoreFailuresScore(rs, worse, "");
    var cats := Categories(rs);
    var xs, ys := CategoryScores(round, weights, rs, cats), CategoryScores(round, weights, worse, cats);
    forall i | 0 <= i < |cats| ensures ys[i].score <= xs[i].score {
      MoreFailuresScore(rs, worse, cats[i]);
    }
    WeightedSumMonotone(xs, ys);
    if SumWeights(xs) > 0.0 {
      DivideMonotone(SumScores(ys), SumScores(xs), SumWeights(xs));
    }
  }

  // ------------------------------------------------------------- what is averaged

  /** The page scores, the homepage's twice. */
  function Repeated(scores: seq<real>, homepage: seq<bool>): seq<real>
    requires |scores| == |homepage|
  {
    if scores == [] then []
    else
      var n := |scores| - 1;
      Repeated(scores[..n], homepage[..n]) + if homepage[n] then [scores[n], scores[n]] else [scores[n]]
  }

  lemma {:induction false} RepeatedSums(scores: seq<real>, homepage: seq<bool>)
    requires |scores| == |homepage|
    ensures SumScores(WeightedPages(scores, homepage)) == SumReal(Repeated(scores, homepage))
    ensures SumWeights(WeightedPages(scores, homepage)) == |Repeated(scores, homepage)| as real
    ensures |scores| <= |Repeated(scores, homepage)|
  {
    if scores != [] {
      var n := |scores| - 1;
      RepeatedSums(scores[..n], homepage[..n]);
      assert WeightedPages(scores, homepage)[..n] == WeightedPages(scores[..n], homepage[..n]);
      var last := if homepage[n] then [scores[n], scores[n]] else [scores[n]];
      SumOfSplit(Repeated(scores[..n], homepage[..n]), last);
      assert [scores[n]][..0] == [] && [scores[n], scores[n]][..1] == [scores[n]];
      assert SumReal([scores[n]]) == scores[n];
    }
  }

  /** The overall score is the mean of the page scores, the homepage counted twice, to the nearest tenth. */
  lemma OverallIsMean(scores: seq<real>, homepage: seq<bool>)
    requires |scores| == |homepage| && scores != []
    ensures var all := Repeated(scores, homepage);
            |all| > 0 && SumReal(all) / |all| as real - 0.05 <= Overall(RoundTenth, WeightedPages(scores, homepage))
                         <= SumReal(all) / |all| as real + 0.05
  {
    var all := Repeated(scores, homepage);
    RepeatedSums(scores, homepage);
    hide SumScores, SumWeights, SumReal, Repeated, RoundTenth;
    var n := RoundTenthExactly(SumReal(all) / |all| as real);
  }

  function WeightsIn(xs: seq<Weighted>): seq<real> { seq(|xs|, i requires 0 <= i < |xs| => xs[i].weight) }

  function Product(x: Weighted): real { x.score * x.weight }

  function ProductsIn(xs: seq<Weighted>): seq<real> { seq(|xs|, i requires 0 <= i < |xs| => Product(xs[i])) }

  lemma {:induction false} SumsOfWeighted(xs: seq<Weighted>)
    ensures SumScores(xs) == SumReal(ProductsIn(xs)) && SumWeights(xs) == SumReal(WeightsIn(xs))
  {
    if xs != [] {
      var front, n := xs[..|xs| - 1], |xs| - 1;
      SumsOfWeighted(front);
      assert SumScores(xs) == SumScores(front) + Product(xs[n]);
      hide Product;
      assert WeightsIn(xs)[..n] == WeightsIn(front) && ProductsIn(xs)[..n] == ProductsIn(front);
    }
  }

  /** The category scores of a page under the configured weights. */
  function Averaged(weights: map<string, real>, rs: seq<Result>): seq<Weighted> {
    var cats := Categories(rs);
    seq(|cats|, i requires 0 <= i < |cats| =>
      Weighted(CategoryScoreOnPage(RoundTenth, rs, cats[i]), if cats[i] in weights then weights[cats[i]] else DEFAULT_WEIGHT))
  }

  /** The score of a page is the mean of its category scores under the configured weights, to the nearest tenth. */
  lemma PageScoreIsMean(weights: map<string, real>, rs: seq<Result>)
    requires PositiveWeights(weights) && rs != []
    ensures var xs, score := Averaged(weights, rs), PageScore(RoundTenth, weights, rs);
            var weight, sum := SumReal(WeightsIn(xs)), SumReal(ProductsIn(xs));
            weight > 0.0 && sum / weight - 0.05 <= score <= sum / weight + 0.05
  {
    var xs := CategoryScores(RoundTenth, weights, rs, Categories(rs));
    assert xs == Averaged(weights, rs) by {
      hide CategoryScoreOnPage;
    }
    hide CategoryScores, Averaged, PageScore, RoundTenth, SumScores, SumWeights, SumReal, WeightsIn, ProductsIn;
    PageQuotient(weights, rs);
    SumsOfWeighted(xs);
    var n := RoundTenthExactly(SumScores(xs) / SumWeights(xs));
  }

  lemma PageQuotient(weights: map<string, real>, rs: seq<Result>)
    requires PositiveWeights(weights) && rs != []
    ensures var xs := CategoryScores(RoundTenth, weights, rs, Categories(rs));
            SumWeights(xs) > 0.0 && PageScore(RoundTenth, weights, rs) == RoundTenth(SumScores(xs) / SumWeights(xs))
  {
    hide RoundTenth, CategoryScores, CategoryScoreOnPage, SumScores, SumWeights, IsRounding;
    RoundTenthRounds();
    forall c | c in Categories(rs) ensures Tenth(0) <= CategoryScoreOnPage(RoundTenth, rs, c) <= Tenth(1000) {
      CategoryOnPageInRange(rs, c);
    }
    PageBetweenCategories(RoundTenth, weights, rs, 0, 1000);
  }

  lemma CategoryOnPageInRange(rs: seq<Result>, category: string)
    ensures Tenth(0) <= CategoryScoreOnPage(RoundTenth, rs, category) <= Tenth(1000)
  {
    RoundTenthRounds();
    RoundBounds(RoundTenth, Clamp(RawScore(rs, category)));
  }

  /** Each category that occurs is averaged once. */
  lemma {:induction false} CategoriesExactly(rs: seq<Result>)
    ensures forall i, j :: 0 <= i < j < |Categories(rs)| ==> Categories(rs)[i] != Categories(rs)[j]
    ensures forall c :: c in Categories(rs) <==> exists r :: r in rs && r.category == c
  {
    if rs != [] {
      var before, last := rs[..|rs| - 1], rs[|rs| - 1];
      CategoriesExactly(before);
      assert rs == before + [last];
      assert forall r :: r in rs <==> r in before || r == last;
      assert last in rs;
    }
  }

  lemma {:induction false} RawScoreSplit(a: seq<Result>, b: seq<Result>, category: string)
    ensures RawScore(a + b, category) == RawScore(a, category) + RawScore(b, category) - 100.0
  {
    if b == [] {
      assert a + b == a;
    } else {
      assert (a + b)[..|a + b| - 1] == a + b[..|b| - 1];
      RawScoreSplit(a, b[..|b| - 1], category);
    }
  }

  /** What one result moves the score of a category by: a failed one its impact, a passed one its impact if that is a bonus. */
  lemma RawScoreExactly(before: seq<Result>, r: Result, after: seq<Result>, category: string)
    ensures RawScore([], category) == 100.0
    ensures RawScore(before + [r] + after, category) == RawScore(before + after, category) +
              if r.category != category then 0.0 else if !r.passed then r.impact else if r.impact > 0.0 then r.impact else 0.0
  {
    RawScoreSplit(before + [r], after, category);
    RawScoreSplit(before, [r], category);
    RawScoreSplit(before, after, category);
    assert [r][..0] == [];
  }

  /** The score of a category on a page is the raw one where that lies within 0 and 100, else the nearer bound. */
  lemma CategoryScoreClamped(rs: seq<Result>, category: string)
    ensures var raw, score := RawScore(rs, category), CategoryScoreOnPage(RoundTenth, rs, category);
            && (raw <= 0.0 ==> score == 0.0) && (raw >= 100.0 ==> score == 100.0)
            && (0.0 <= raw <= 100.0 ==> raw - 0.05 <= score <= raw + 0.05)
  {
    var n := RoundTenthExactly(Clamp(RawScore(rs, category)));
    RoundTenthRounds();
    assert RoundTenth(Tenth(0)) == Tenth(0) && RoundTenth(Tenth(1000)) == Tenth(1000);
  }
}
