/**
 * The per-level summary of the student's final-grade screen: for every
 * level, the ECTS-weighted average of the scores of the subscriptions whose
 * course has that level, or null when no ECTS are counted. Arithmetic is
 * over `real`.
 */
module GradeSummary {
  import opened Wrappers
  import opened Entities
  import Lists

  /** A counted (course, score) pair. */
  type Counted = (Course, real)

  /**
   * The `mapNotNull` body: the first course with the subscription's course
   * id AND the level, paired with the subscription's score.
   */
  function CountedPair(courses: seq<Course>, level: LevelCourse, sub: Subscribe): (r: Option<Counted>)
    ensures r.Some? ==> r.value.0 in courses && r.value.0.idCourse == sub.courseId
                        && r.value.0.level == level && r.value.1 == sub.score
    ensures r.None? <==> forall c :: c in courses ==> !(c.idCourse == sub.courseId && c.level == level)
  {
    match Lists.FindFirst(courses, (c: Course) => c.idCourse == sub.courseId && c.level == level)
    case Some(c) => Some((c, sub.score))
    case None => None
  }

  /** `levelCourses`: the counted pairs of one level, in subscription order. */
  function LevelPairs(subs: seq<Subscribe>, courses: seq<Course>, level: LevelCourse): (r: seq<Counted>)
    ensures |r| <= |subs|
    ensures forall p :: p in r ==>
              p.0 in courses && p.0.level == level
              && exists s :: s in subs && s.courseId == p.0.idCourse && s.score == p.1
  {
    Lists.MapNotNull(subs, (s: Subscribe) => CountedPair(courses, level, s))
  }

  /** `totalEcts`: the sum of the counted courses' ECTS. */
  function TotalEcts(pairs: seq<Counted>): (r: real)
    ensures pairs == [] ==> r == 0.0
    ensures (forall p :: p in pairs ==> p.0.ects >= 0.0) ==> r >= 0.0
  {
    if forall p :: p in pairs ==> p.0.ects >= 0.0 then
      Lists.SumOfNonNegative(pairs, (p: Counted) => p.0.ects);
      Lists.SumOf(pairs, (p: Counted) => p.0.ects)
    else
      Lists.SumOf(pairs, (p: Counted) => p.0.ects)
  }

  /** A pair's weight in the average: its course's ECTS times its score. */
  function Points(p: Counted): (r: real)
    ensures p.0.ects >= 0.0 && p.1 >= 0.0 ==> r >= 0.0
    ensures p.0.ects == 0.0 || p.1 == 0.0 ==> r == 0.0
  {
    p.0.ects * p.1
  }

  /** `weightedSum`: the sum of ECTS times score. */
  function WeightedSum(pairs: seq<Counted>): (r: real)
    ensures pairs == [] ==> r == 0.0
    ensures (forall p :: p in pairs ==> p.0.ects >= 0.0 && p.1 >= 0.0) ==> r >= 0.0
  {
    if forall p :: p in pairs ==> p.0.ects >= 0.0 && p.1 >= 0.0 then
      Lists.SumOfNonNegative(pairs, Points);
      Lists.SumOf(pairs, Points)
    else
      Lists.SumOf(pairs, Points)
  }

  /** `average`: the weighted average, or null when the total ECTS is not positive. */
  function Average(pairs: seq<Counted>): (r: Option<real>)
    ensures r.None? <==> TotalEcts(pairs) <= 0.0
    ensures r.Some? ==> r.value * TotalEcts(pairs) == WeightedSum(pairs)
  {
    if TotalEcts(pairs) > 0.0 then Some(WeightedSum(pairs) / TotalEcts(pairs)) else None
  }

  /** The summary rows for the given levels, one per level, in that order. */
  function Summaries(levels: seq<LevelCourse>, subs: seq<Subscribe>, courses: seq<Course>): (r: seq<(LevelCourse, Option<real>)>)
    ensures |r| == |levels|
    ensures forall i :: 0 <= i < |levels| ==>
              r[i].0 == levels[i] && r[i].1 == Average(LevelPairs(subs, courses, levels[i]))
  {
    if levels == [] then []
    else
      var rest := Summaries(levels[1..], subs, courses);
      assert forall i :: 1 <= i < |levels| ==> levels[i] == levels[1..][i - 1];
      [(levels[0], Average(LevelPairs(subs, courses, levels[0])))] + rest
  }

  /** `levelGrades`: one entry per `LevelCourse` value, in enumeration order. */
  function LevelGrades(subs: seq<Subscribe>, courses: seq<Course>): (r: seq<(LevelCourse, Option<real>)>)
    ensures |r| == 11
    ensures forall i :: 0 <= i < 11 ==> r[i].0 == AllLevels[i]
    ensures forall level :: r[LevelIndex(level)] == (level, Average(LevelPairs(subs, courses, level)))
  {
    Summaries(AllLevels, subs, courses)
  }

  /** A level with no counted course gets null ("No grades yet"). */
  lemma NoCountedCourseNoGrade(subs: seq<Subscribe>, courses: seq<Course>, level: LevelCourse)
    requires forall s :: s in subs ==> forall c :: c in courses ==> !(c.idCourse == s.courseId && c.level == level)
    ensures Average(LevelPairs(subs, courses, level)) == None
  {
    var r := LevelPairs(subs, courses, level);
    if r != [] {
      assert r[0] in r;
    }
  }

  /** A subscription whose course is missing, or has another level, changes nothing at that level. */
  lemma UnmatchedSubscriptionIgnored(subs: seq<Subscribe>, s: Subscribe, courses: seq<Course>, level: LevelCourse)
    requires forall c :: c in courses ==> !(c.idCourse == s.courseId && c.level == level)
    ensures LevelPairs(subs + [s], courses, level) == LevelPairs(subs, courses, level)
  {
    Lists.MapNotNullAppend(subs, [s], (s: Subscribe) => CountedPair(courses, level, s));
  }

  /** A subscription whose course exists at the level appends its (course, score) pair. */
  lemma LevelPairsSnoc(subs: seq<Subscribe>, sub: Subscribe, courses: seq<Course>, level: LevelCourse, p: Counted)
    requires CountedPair(courses, level, sub) == Some(p)
    ensures LevelPairs(subs + [sub], courses, level) == LevelPairs(subs, courses, level) + [p]
  {
    Lists.MapNotNullAppend(subs, [sub], (s: Subscribe) => CountedPair(courses, level, s));
    assert LevelPairs([sub], courses, level) == [p];
  }

  /** A further counted pair adds its ECTS to the total and its points to the weighted sum. */
  lemma TotalWeightedSnoc(pairs: seq<Counted>, p: Counted)
    ensures TotalEcts(pairs + [p]) == TotalEcts(pairs) + p.0.ects
    ensures WeightedSum(pairs + [p]) == WeightedSum(pairs) + Points(p)
  {
    SumOfSnoc(pairs, p, (q: Counted) => q.0.ects);
    SumOfSnoc(pairs, p, Points);
  }

  lemma {:induction false} SumOfSnoc(xs: seq<Counted>, x: Counted, f: Counted -> real)
    ensures Lists.SumOf(xs + [x], f) == Lists.SumOf(xs, f) + f(x)
  {
    if xs != [] {
      assert (xs + [x])[1..] == xs[1..] + [x];
      SumOfSnoc(xs[1..], x, f);
    }
  }

  /** With non-negative ECTS, the weighted sum lies between lo and hi times the total ECTS. */
  lemma {:induction false} WeightedSumBetween(pairs: seq<Counted>, lo: real, hi: real)
    requires forall p :: p in pairs ==> p.0.ects >= 0.0 && lo <= p.1 <= hi
    ensures lo * TotalEcts(pairs) <= WeightedSum(pairs) <= hi * TotalEcts(pairs)
  {
    if pairs != [] {
      var p := pairs[0];
      assert forall q :: q in pairs[1..] ==> q in pairs;
      WeightedSumBetween(pairs[1..], lo, hi);
      assert TotalEcts(pairs) == p.0.ects + TotalEcts(pairs[1..]);
      assert WeightedSum(pairs) == Points(p) + WeightedSum(pairs[1..]);
      PointsBetween(p, lo, hi);
      Distribute(lo, p.0.ects, TotalEcts(pairs[1..]));
      Distribute(hi, p.0.ects, TotalEcts(pairs[1..]));
    }
  }

  /** One pair's points lie between lo and hi times its ECTS. */
  lemma PointsBetween(p: Counted, lo: real, hi: real)
    requires p.0.ects >= 0.0 && lo <= p.1 <= hi
    ensures lo * p.0.ects <= Points(p) <= hi * p.0.ects
  {
    assert Points(p) - lo * p.0.ects == p.0.ects * (p.1 - lo);
    assert hi * p.0.ects - Points(p) == p.0.ects * (hi - p.1);
  }

  lemma Distribute(a: real, x: real, y: real)
    ensures a * (x + y) == a * x + a * y
  {
  }

  /** A ratio of a value between lo * t and hi * t to a positive t lies in [lo, hi]. */
  lemma RatioBetween(w: real, t: real, lo: real, hi: real)
    requires t > 0.0 && lo * t <= w <= hi * t
    ensures lo <= w / t <= hi
  {
  }

  /** With non-negative ECTS and scores in [lo, hi], a level's average is in [lo, hi]. */
  lemma AverageBetween(pairs: seq<Counted>, lo: real, hi: real)
    requires forall p :: p in pairs ==> p.0.ects >= 0.0 && lo <= p.1 <= hi
    requires Average(pairs).Some?
    ensures lo <= Average(pairs).value <= hi
  {
    WeightedSumBetween(pairs, lo, hi);
    RatioBetween(WeightedSum(pairs), TotalEcts(pairs), lo, hi);
  }

  /**
   * One level with (3 ECTS, score 10) and (5 ECTS, score 16): (30 + 80) / 8 = 13.75;
   * a level with no course gets null. By LevelGrades' contract these are
   * entries 3 (B1) and 0 (P1) of the screen.
   */
  lemma WorkedExample(c1: Course, c2: Course, subs: seq<Subscribe>)
    requires c1 == Course(1, "Algebra", 3.0, B1, None) && c2 == Course(2, "Biology", 5.0, B1, None)
    requires subs == [Subscribe(7, 1, 10.0), Subscribe(7, 2, 16.0)]
    ensures Average(LevelPairs(subs, [c1, c2], B1)) == Some(13.75)
    ensures Average(LevelPairs(subs, [c1, c2], P1)) == None
  {
    ExamplePairs(c1, c2, subs);
    ExampleSums((c1, 10.0), (c2, 16.0));
    NoCountedCourseNoGrade(subs, [c1, c2], P1);
  }

  lemma ExamplePairs(c1: Course, c2: Course, subs: seq<Subscribe>)
    requires c1 == Course(1, "Algebra", 3.0, B1, None) && c2 == Course(2, "Biology", 5.0, B1, None)
    requires subs == [Subscribe(7, 1, 10.0), Subscribe(7, 2, 16.0)]
    ensures LevelPairs(subs, [c1, c2], B1) == [(c1, 10.0), (c2, 16.0)]
  {
    assert CountedPair([c1, c2], B1, subs[0]) == Some((c1, 10.0));
    assert CountedPair([c1, c2], B1, subs[1]) == Some((c2, 16.0));
    LevelPairsSnoc([], subs[0], [c1, c2], B1, (c1, 10.0));
    LevelPairsSnoc([subs[0]], subs[1], [c1, c2], B1, (c2, 16.0));
    assert [] + [subs[0]] == [subs[0]] && [subs[0]] + [subs[1]] == subs;
  }

  lemma ExampleSums(p1: Counted, p2: Counted)
    requires p1.0.ects == 3.0 && p1.1 == 10.0 && p2.0.ects == 5.0 && p2.1 == 16.0
    ensures Average([p1, p2]) == Some(13.75)
  {
    TotalWeightedSnoc([], p1);
    TotalWeightedSnoc([p1], p2);
    assert [] + [p1] == [p1] && [p1] + [p2] == [p1, p2];
  }
}
