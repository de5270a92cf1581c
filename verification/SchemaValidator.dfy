/**
 The evaluator as it runs: issues pushed to a context with an error budget, early exits once the
 budget is spent, and fresh probe contexts with budgets of 1 or 3 under `contains`, `anyOf`,
 `oneOf`, `not` and `if`. Every procedure collects exactly what the unbounded run reports, cut off
 at the budget.
 */
module SchemaValidator {
  import opened Text
  import opened Json
  import opened Canonical
  import opened SchemaNodes
  import opened SchemaValidity

  /**
   `before` became `after` by reporting `more` under the budget `k`. Nothing is lost unless the
   result is marked truncated, and it is newly marked only when the budget is spent.
   */
  ghost predicate Collected(before: seq<Issue>, was: bool, more: seq<Issue>, after: seq<Issue>, now: bool, k: nat) {
    && |before| <= k && after == Take(before + more, k)
    && (was ==> now)
    && (!now ==> after == before + more)
    && (now && !was ==> |after| == k)
  }

  lemma CollectedNothing(issues: seq<Issue>, flag: bool, k: nat)
    requires |issues| <= k
    ensures Collected(issues, flag, [], issues, flag, k)
  {
    assert issues + [] == issues;
  }

  /** One report after another is the report of both. */
  lemma CollectedChain(a: seq<Issue>, fa: bool, x: seq<Issue>, b: seq<Issue>, fb: bool, y: seq<Issue>,
                       c: seq<Issue>, fc: bool, k: nat)
    requires Collected(a, fa, x, b, fb, k) && Collected(b, fb, y, c, fc, k)
    ensures Collected(a, fa, x + y, c, fc, k)
  {
    assert a + (x + y) == (a + x) + y;
    if |a + x| <= k {
    } else {
      assert (a + x + y)[..k] == (a + x)[..k];
      assert b + y == b + y && Take(b + y, k) == b;
    }
  }

  /** Once the budget is spent and said so, skipping the rest loses nothing that would be kept. */
  lemma CollectedFull(a: seq<Issue>, fa: bool, x: seq<Issue>, b: seq<Issue>, y: seq<Issue>, k: nat)
    requires Collected(a, fa, x, b, true, k) && |b| == k
    ensures Collected(a, fa, x + y, b, true, k)
  {
    assert a + (x + y) == (a + x) + y;
    assert |a + x| >= k;
    assert (a + x + y)[..k] == (a + x)[..k];
  }

  lemma FlatAppend<T>(r: seq<seq<T>>, x: seq<T>)
    ensures Flat(r + [x]) == Flat(r) + x
  {
    assert (r + [x])[..|r|] == r;
  }

  /** Flattening everything is flattening a prefix and then something. */
  lemma {:induction false} FlatPrefix<T>(r: seq<seq<T>>, n: nat) returns (y: seq<T>)
    requires n <= |r|
    ensures Flat(r) == Flat(r[..n]) + y
    decreases |r| - n
  {
    if n == |r| {
      assert r[..n] == r;
      y := [];
      assert Flat(r) == Flat(r) + [];
    } else {
      y := FlatPrefix(r, n + 1);
      assert r[..n + 1] == r[..n] + [r[n]];
      FlatAppend(r[..n], r[n]);
      assert Flat(r[..n]) + r[n] + y == Flat(r[..n]) + (r[n] + y);
      y := r[n] + y;
    }
  }

  /** The first three of everything are among the first three of each part. */
  lemma {:induction false} TakeParts<T>(r: seq<seq<T>>, cut: seq<seq<T>>, k: nat)
    requires |r| == |cut| && forall i :: 0 <= i < |r| ==> cut[i] == Take(r[i], k)
    ensures Take(Flat(cut), k) == Take(Flat(r), k)
    decreases |r|
  {
    if r != [] {
      var n := |r| - 1;
      TakeParts(r[..n], cut[..n], k);
      TakeConcat(Flat(cut[..n]), Flat(r[..n]), r[n], k);
    }
  }

  lemma TakeConcat<T>(a: seq<T>, b: seq<T>, x: seq<T>, k: nat)
    requires Take(a, k) == Take(b, k)
    ensures Take(a + Take(x, k), k) == Take(b + x, k)
  {
    if |a| >= k {
      assert |b| >= k;
      assert (a + Take(x, k))[..k] == a[..k];
      assert (b + x)[..k] == b[..k];
      assert |a| == k ==> a[..k] == a;
      assert |b| == k ==> b[..k] == b;
    } else {
      assert a == b;
      if |x| > k { assert (a + x[..k])[..k] == (a + x)[..k]; }
    }
  }

  class Ctx {
    var issues: seq<Issue>
    var truncated: bool
    const maxErrors: nat

    constructor (maxErrors: nat)
      ensures issues == [] && !truncated && this.maxErrors == maxErrors
    {
      issues, truncated, this.maxErrors := [], false, maxErrors;
    }

    method Add(issue: Issue)
      requires |issues| <= maxErrors
      modifies this
      ensures Collected(old(issues), old(truncated), [issue], issues, truncated, maxErrors)
    {
      if |issues| >= maxErrors {
        truncated := true;
        assert (issues + [issue])[..maxErrors] == issues;
      } else {
        issues := issues + [issue];
      }
    }

    method AddWhen(fails: bool, issue: Issue)
      requires |issues| <= maxErrors
      modifies this
      ensures Collected(old(issues), old(truncated), When(fails, issue), issues, truncated, maxErrors)
    {
      if fails { Add(issue); } else { CollectedNothing(issues, truncated, maxErrors); }
    }

    /** True once the budget is spent, which also marks the result truncated. */
    method Full() returns (full: bool)
      requires |issues| <= maxErrors
      modifies this
      ensures issues == old(issues)
      ensures full <==> |issues| == maxErrors
      ensures truncated == (old(truncated) || full)
    {
      full := |issues| >= maxErrors;
      if full { truncated := true; }
    }
  }

  method CheckString(s: Text, c: Scalar, path: seq<PathStep>, ctx: Ctx, w: World)
    requires |ctx.issues| <= ctx.maxErrors
    modifies ctx
    ensures Collected(old(ctx.issues), old(ctx.truncated), StringIssues(s, c, path, w), ctx.issues, ctx.truncated,
                      ctx.maxErrors)
  {
    hide CodePoints, PatternOk, FormatFine, Collected;
    var n := CodePoints(s);
    ghost var a, fa := ctx.issues, ctx.truncated;
    var p1, p2 := c.minLength.Some? && n < c.minLength.value, c.maxLength.Some? && n > c.maxLength.value;
    Report4(ctx, p1, Plain(path, MinLengthRule), p2, Plain(path, MaxLengthRule),
            !PatternOk(s, c, w), Plain(path, PatternRule), !FormatFine(Str(s), c, w), Plain(path, FormatRule));
  }

  /** Four conditional reports in a row. */
  method Report4(ctx: Ctx, p: bool, i: Issue, q: bool, j: Issue, r: bool, k: Issue, s: bool, l: Issue)
    requires |ctx.issues| <= ctx.maxErrors
    modifies ctx
    ensures Collected(old(ctx.issues), old(ctx.truncated), When(p, i) + When(q, j) + When(r, k) + When(s, l),
                      ctx.issues, ctx.truncated, ctx.maxErrors)
  {
    Report2(ctx, p, i, q, j);
    ghost var b, fb := ctx.issues, ctx.truncated;
    assert |b| <= ctx.maxErrors;
    Report2(ctx, r, k, s, l);
    CollectedChain(old(ctx.issues), old(ctx.truncated), When(p, i) + When(q, j), b, fb, When(r, k) + When(s, l),
                   ctx.issues, ctx.truncated, ctx.maxErrors);
    assert When(p, i) + When(q, j) + (When(r, k) + When(s, l)) == When(p, i) + When(q, j) + When(r, k) + When(s, l);
  }

  method Report2(ctx: Ctx, p: bool, i: Issue, q: bool, j: Issue)
    requires |ctx.issues| <= ctx.maxErrors
    modifies ctx
    ensures Collected(old(ctx.issues), old(ctx.truncated), When(p, i) + When(q, j), ctx.issues, ctx.truncated,
                      ctx.maxErrors)
  {
    ctx.AddWhen(p, i);
    ghost var b, fb := ctx.issues, ctx.truncated;
    ctx.AddWhen(q, j);
    CollectedChain(old(ctx.issues), old(ctx.truncated), When(p, i), b, fb, When(q, j), ctx.issues, ctx.truncated,
                   ctx.maxErrors);
  }

  method CheckNumber(lexeme: Text, c: Scalar, path: seq<PathStep>, ctx: Ctx, w: World)
    requires |ctx.issues| <= ctx.maxErrors
    modifies ctx
    ensures Collected(old(ctx.issues), old(ctx.truncated), NumberIssues(lexeme, c, path, w), ctx.issues, ctx.truncated,
                      ctx.maxErrors)
  {
    hide Collected, FormatFine;
    var x := w.lib.number(lexeme);
    Report4(ctx, c.minimum.Some? && x < c.minimum.value, Plain(path, MinimumRule),
            c.maximum.Some? && x > c.maximum.value, Plain(path, MaximumRule),
            c.exclusiveMinimum.Some? && x <= c.exclusiveMinimum.value, Plain(path, ExclusiveMinimumRule),
            c.exclusiveMaximum.Some? && x >= c.exclusiveMaximum.value, Plain(path, ExclusiveMaximumRule));
    ghost var b, fb := ctx.issues, ctx.truncated;
    CollectedBound(old(ctx.issues), old(ctx.truncated), BoundIssues(x, c, path), b, fb, ctx.maxErrors);
    Report2(ctx, c.multipleOf.Some? && c.multipleOf.value > 0.0 && !w.lib.multiple(x, c.multipleOf.value),
            Plain(path, MultipleOfRule), !FormatFine(Num(lexeme), c, w), Plain(path, FormatRule));
    ghost var last := When(c.multipleOf.Some? && c.multipleOf.value > 0.0 && !w.lib.multiple(x, c.multipleOf.value),
                           Plain(path, MultipleOfRule)) + When(!FormatFine(Num(lexeme), c, w), Plain(path, FormatRule));
    CollectedChain(old(ctx.issues), old(ctx.truncated), BoundIssues(x, c, path), b, fb, last, ctx.issues, ctx.truncated,
                   ctx.maxErrors);
  }

  // ----- composition

  lemma CollectedStop(issues: seq<Issue>, was: bool, more: seq<Issue>, k: nat)
    requires |issues| == k
    ensures Collected(issues, was, more, issues, true, k)
  {
    assert (issues + more)[..k] == issues;
    assert |more| == 0 ==> issues + more == issues;
  }

  lemma CollectedMark(a: seq<Issue>, fa: bool, x: seq<Issue>, b: seq<Issue>, fb: bool, k: nat)
    requires Collected(a, fa, x, b, fb, k) && |b| == k
    ensures Collected(a, fa, x, b, true, k)
  {
  }

  /** The loop step shared by every scan: one more part, then the budget test. */
  lemma CollectedStep(a: seq<Issue>, fa: bool, parts: seq<seq<Issue>>, i: nat, b: seq<Issue>, fb: bool,
                      c: seq<Issue>, fc: bool, k: nat)
    requires i < |parts| && Collected(a, fa, Flat(parts[..i]), b, fb, k) && Collected(b, fb, parts[i], c, fc, k)
    ensures Collected(a, fa, Flat(parts[..i + 1]), c, fc, k)
  {
    CollectedChain(a, fa, Flat(parts[..i]), b, fb, parts[i], c, fc, k);
    assert parts[..i + 1] == parts[..i] + [parts[i]];
    FlatAppend(parts[..i], parts[i]);
  }

  /** Leaving a scan early, with the budget spent, still accounts for all of it. */
  lemma CollectedLeave(a: seq<Issue>, fa: bool, parts: seq<seq<Issue>>, n: nat, b: seq<Issue>, k: nat)
    requires n <= |parts| && Collected(a, fa, Flat(parts[..n]), b, true, k) && |b| == k
    ensures Collected(a, fa, Flat(parts), b, true, k)
  {
    var y := FlatPrefix(parts, n);
    CollectedFull(a, fa, Flat(parts[..n]), b, y, k);
  }

  // ----- the evaluator

  method Check(v: Json, s: Node, path: seq<PathStep>, ctx: Ctx, depth: nat, w: World)
    requires |ctx.issues| <= ctx.maxErrors
    modifies ctx
    ensures Collected(old(ctx.issues), old(ctx.truncated), All(v, s, path, depth, w), ctx.issues, ctx.truncated,
                      ctx.maxErrors)
    decreases Left(depth, w), 9
  {
    hide Collected, AllBeside, OnlyRef;
    var full := ctx.Full();
    if full {
      CollectedStop(old(ctx.issues), old(ctx.truncated), All(v, s, path, depth, w), ctx.maxErrors);
      return;
    }
    if depth > w.maxDepth {
      ctx.Add(Plain(path, DepthRule));
      return;
    }
    if s.ref.Some? {
      if s.ref.value !in w.defs {
        ctx.Add(Plain(path, RefRule));
        return;
      }
      var target := w.defs[s.ref.value];
      Check(v, target, path, ctx, depth + 1, w);
      ghost var x := All(v, target, path, depth + 1, w);
      if OnlyRef(s) {
        assert All(v, s, path, depth, w) == x + [] == x;
        return;
      }
      ghost var b, fb := ctx.issues, ctx.truncated;
      CollectedBound(old(ctx.issues), old(ctx.truncated), x, b, fb, ctx.maxErrors);
      CheckBeside(v, s, path, ctx, depth, w);
      CollectedChain(old(ctx.issues), old(ctx.truncated), x, b, fb, AllBeside(v, s, path, depth, w),
                     ctx.issues, ctx.truncated, ctx.maxErrors);
    } else {
      CheckBeside(v, s, path, ctx, depth, w);
    }
  }

  lemma CollectedBound(a: seq<Issue>, fa: bool, x: seq<Issue>, b: seq<Issue>, fb: bool, k: nat)
    requires Collected(a, fa, x, b, fb, k)
    ensures |b| <= k
  {
  }

  method CheckBeside(v: Json, s: Node, path: seq<PathStep>, ctx: Ctx, depth: nat, w: World)
    requires depth <= w.maxDepth && |ctx.issues| <= ctx.maxErrors
    modifies ctx
    ensures Collected(old(ctx.issues), old(ctx.truncated), AllBeside(v, s, path, depth, w), ctx.issues, ctx.truncated,
                      ctx.maxErrors)
    decreases Left(depth, w), 8
  {
    hide Collected, TypeOk, EnumOk, ConstOk, AllByType, AllApplicators;
    if s.nullableAny && v.Null? {
      CollectedNothing(ctx.issues, ctx.truncated, ctx.maxErrors);
      return;
    }
    if !TypeOk(v, s.types, w.lib) {
      ctx.Add(Plain(path, TypeRule));
      return;
    }
    ghost var a, fa, k := ctx.issues, ctx.truncated, ctx.maxErrors;
    Report2(ctx, !EnumOk(v, s.enum), Plain(path, EnumRule), !ConstOk(v, s.constant), Plain(path, ConstRule));
    ghost var b, fb := ctx.issues, ctx.truncated;
    ghost var x := When(!EnumOk(v, s.enum), Plain(path, EnumRule))
        + When(!ConstOk(v, s.constant), Plain(path, ConstRule));
    CollectedBound(a, fa, x, b, fb, k);
    CheckByType(v, s, path, ctx, depth, w);
    ghost var c, fc := ctx.issues, ctx.truncated;
    CollectedChain(a, fa, x, b, fb, AllByType(v, s, path, depth, w), c, fc, k);
    CollectedBound(b, fb, AllByType(v, s, path, depth, w), c, fc, k);
    CheckApplicators(v, s, path, ctx, depth, w);
    CollectedChain(a, fa, x + AllByType(v, s, path, depth, w), c, fc, AllApplicators(v, s, path, depth, w),
                   ctx.issues, ctx.truncated, k);
  }

  method CheckByType(v: Json, s: Node, path: seq<PathStep>, ctx: Ctx, depth: nat, w: World)
    requires depth <= w.maxDepth && |ctx.issues| <= ctx.maxErrors
    modifies ctx
    ensures Collected(old(ctx.issues), old(ctx.truncated), AllByType(v, s, path, depth, w), ctx.issues, ctx.truncated,
                      ctx.maxErrors)
    decreases Left(depth, w), 7
  {
    hide Collected, StringIssues, NumberIssues, AllArray, AllObject;
    match v {
      case Str(text) => CheckString(text, s.scalar, path, ctx, w);
      case Num(lexeme) => CheckNumber(lexeme, s.scalar, path, ctx, w);
      case Arr(items) => CheckArray(items, s, path, ctx, depth, w);
      case Obj(members) => CheckObject(members, s, path, ctx, depth, w);
      case _ => CollectedNothing(ctx.issues, ctx.truncated, ctx.maxErrors);
    }
  }

  // ----- arrays

  method CheckArray(items: seq<Json>, s: Node, path: seq<PathStep>, ctx: Ctx, depth: nat, w: World)
    requires depth <= w.maxDepth && |ctx.issues| <= ctx.maxErrors
    modifies ctx
    ensures Collected(old(ctx.issues), old(ctx.truncated), AllArray(items, s, path, depth, w), ctx.issues,
                      ctx.truncated, ctx.maxErrors)
    decreases Left(depth, w), 6
  {
    hide Collected, LengthIssues, AllPrefix, AllRest, ContainedFlags, ContainsIssues, Flat, Count;
    ghost var a, fa, k := ctx.issues, ctx.truncated, ctx.maxErrors;
    ghost var p1 := LengthIssues(items, s, path);
    ghost var p2 := Flat(AllPrefix(items, s, path, depth, w, Min(PrefixLength(s), |items|)));
    ghost var p3 := if s.items.Some? && PrefixLength(s) <= |items|
      then Flat(AllRest(items, s, path, depth, w, |items| - PrefixLength(s))) else [];
    ghost var p4 := if s.contains.Some?
      then ContainsIssues(s, Count(ContainedFlags(items, s.contains.value, path, depth, w, |items|)), path) else [];
    CheckLength(items, s, path, ctx);
    ghost var b, fb := ctx.issues, ctx.truncated;
    CollectedBound(a, fa, p1, b, fb, k);
    var stop := PrefixLoop(items, s, path, ctx, depth, w);
    CollectedChain(a, fa, p1, b, fb, p2, ctx.issues, ctx.truncated, k);
    if stop {
      CollectedFull(a, fa, p1 + p2, ctx.issues, p3, k);
      CollectedFull(a, fa, p1 + p2 + p3, ctx.issues, p4, k);
      return;
    }
    b, fb := ctx.issues, ctx.truncated;
    CollectedBound(a, fa, p1 + p2, b, fb, k);
    if s.items.Some? && PrefixLength(s) <= |items| {
      stop := RestLoop(items, s, path, ctx, depth, w);
    } else {
      CollectedNothing(b, fb, k);
    }
    CollectedChain(a, fa, p1 + p2, b, fb, p3, ctx.issues, ctx.truncated, k);
    if stop {
      CollectedFull(a, fa, p1 + p2 + p3, ctx.issues, p4, k);
      return;
    }
    b, fb := ctx.issues, ctx.truncated;
    CollectedBound(a, fa, p1 + p2 + p3, b, fb, k);
    CheckContains(items, s, path, ctx, depth, w);
    CollectedChain(a, fa, p1 + p2 + p3, b, fb, p4, ctx.issues, ctx.truncated, k);
  }

  method CheckLength(items: seq<Json>, s: Node, path: seq<PathStep>, ctx: Ctx)
    requires |ctx.issues| <= ctx.maxErrors
    modifies ctx
    ensures Collected(old(ctx.issues), old(ctx.truncated), LengthIssues(items, s, path), ctx.issues, ctx.truncated,
                      ctx.maxErrors)
  {
    hide Collected, CanonicalJson;
    ghost var a, fa, k := ctx.issues, ctx.truncated, ctx.maxErrors;
    Report2(ctx, s.length.least.Some? && |items| < s.length.least.value, Plain(path, MinItemsRule),
            s.length.most.Some? && |items| > s.length.most.value, Plain(path, MaxItemsRule));
    ghost var b, fb := ctx.issues, ctx.truncated;
    ghost var x := When(s.length.least.Some? && |items| < s.length.least.value, Plain(path, MinItemsRule))
      + When(s.length.most.Some? && |items| > s.length.most.value, Plain(path, MaxItemsRule));
    CollectedBound(a, fa, x, b, fb, k);
    var d := |items|;
    if s.unique { d := RepeatScan(items); }
    ghost var e := FirstDuplicate(items, 0);
    ctx.AddWhen(s.unique && d < |items|, Plain(path + [AtIndex(d)], UniqueItemsRule));
    ghost var y := When(s.unique && e < |items|, Plain(path + [AtIndex(e)], UniqueItemsRule));
    assert y == When(s.unique && d < |items|, Plain(path + [AtIndex(d)], UniqueItemsRule));
    CollectedChain(a, fa, x, b, fb, y, ctx.issues, ctx.truncated, k);
  }

  /** The set of canonical texts behind `uniqueItems`. */
  method RepeatScan(items: seq<Json>) returns (d: nat)
    ensures d == FirstDuplicate(items, 0)
    ensures WellFormed(Arr(items)) ==> FirstEqual(items, d)
  {
    hide CanonicalJson, FirstEqual, WellFormed;
    if WellFormed(Arr(items)) { DuplicateIsEqual(items); }
    var seen: set<Text> := {};
    d := 0;
    while d < |items|
      invariant d <= |items|
      invariant forall t :: t in seen <==> exists j :: 0 <= j < d && CanonicalJson(items[j]) == t
      invariant FirstDuplicate(items, d) == FirstDuplicate(items, 0)
    {
      var key := CanonicalJson(items[d]);
      assert RepeatsAt(items, d) <==> key in seen;
      if key in seen { return; }
      seen := seen + {key};
      d := d + 1;
    }
  }

  method PrefixLoop(items: seq<Json>, s: Node, path: seq<PathStep>, ctx: Ctx, depth: nat, w: World) returns (stop: bool)
    requires depth <= w.maxDepth && |ctx.issues| <= ctx.maxErrors
    modifies ctx
    ensures Collected(old(ctx.issues), old(ctx.truncated),
                      Flat(AllPrefix(items, s, path, depth, w, Min(PrefixLength(s), |items|))),
                      ctx.issues, ctx.truncated, ctx.maxErrors)
    ensures stop ==> ctx.truncated && |ctx.issues| == ctx.maxErrors
    decreases Left(depth, w), 1
  {
    hide Collected, All, Flat;
    ghost var a, fa, k := ctx.issues, ctx.truncated, ctx.maxErrors;
    var n := Min(PrefixLength(s), |items|);
    ghost var parts := AllPrefix(items, s, path, depth, w, n);
    FlatNone(parts);
    CollectedNothing(a, fa, k);
    for i := 0 to n
      invariant |ctx.issues| <= k && Collected(a, fa, Flat(parts[..i]), ctx.issues, ctx.truncated, k)
    {
      ghost var b, fb := ctx.issues, ctx.truncated;
      Check(items[i], s.prefix.value[i], path + [AtIndex(i)], ctx, depth + 1, w);
      assert parts[i] == All(items[i], s.prefix.value[i], path + [AtIndex(i)], depth + 1, w);
      CollectedBound(b, fb, parts[i], ctx.issues, ctx.truncated, k);
      CollectedStep(a, fa, parts, i, b, fb, ctx.issues, ctx.truncated, k);
      ghost var fc := ctx.truncated;
      stop := ctx.Full();
      if stop {
        CollectedMark(a, fa, Flat(parts[..i + 1]), ctx.issues, fc, k);
        CollectedLeave(a, fa, parts, i + 1, ctx.issues, k);
        return;
      }
    }
    assert parts[..n] == parts;
    stop := false;
  }

  lemma FlatNone<T>(parts: seq<seq<T>>)
    ensures Flat(parts[..0]) == []
  {
  }

  method RestLoop(items: seq<Json>, s: Node, path: seq<PathStep>, ctx: Ctx, depth: nat, w: World) returns (stop: bool)
    requires depth <= w.maxDepth && |ctx.issues| <= ctx.maxErrors && s.items.Some? && PrefixLength(s) <= |items|
    modifies ctx
    ensures Collected(old(ctx.issues), old(ctx.truncated),
                      Flat(AllRest(items, s, path, depth, w, |items| - PrefixLength(s))),
                      ctx.issues, ctx.truncated, ctx.maxErrors)
    ensures stop ==> ctx.truncated && |ctx.issues| == ctx.maxErrors
    decreases Left(depth, w), 1
  {
    hide Collected, All, Flat;
    ghost var a, fa, k := ctx.issues, ctx.truncated, ctx.maxErrors;
    var p := PrefixLength(s);
    ghost var parts := AllRest(items, s, path, depth, w, |items| - p);
    FlatNone(parts);
    CollectedNothing(a, fa, k);
    for i := p to |items|
      invariant |ctx.issues| <= k && Collected(a, fa, Flat(parts[..i - p]), ctx.issues, ctx.truncated, k)
    {
      ghost var b, fb := ctx.issues, ctx.truncated;
      Check(items[i], s.items.value, path + [AtIndex(i)], ctx, depth + 1, w);
      assert parts[i - p] == All(items[i], s.items.value, path + [AtIndex(i)], depth + 1, w);
      CollectedBound(b, fb, parts[i - p], ctx.issues, ctx.truncated, k);
      CollectedStep(a, fa, parts, i - p, b, fb, ctx.issues, ctx.truncated, k);
      ghost var fc := ctx.truncated;
      stop := ctx.Full();
      if stop {
        CollectedMark(a, fa, Flat(parts[..i - p + 1]), ctx.issues, fc, k);
        CollectedLeave(a, fa, parts, i - p + 1, ctx.issues, k);
        return;
      }
    }
    assert parts[..|items| - p] == parts;
    stop := false;
  }

  /** A probe of budget one or more comes back empty exactly when an unbounded run would. */
  method Probe(v: Json, s: Node, path: seq<PathStep>, depth: nat, w: World, budget: nat) returns (issues: seq<Issue>)
    requires budget >= 1
    ensures issues == Take(All(v, s, path, depth, w), budget)
    ensures issues == [] <==> All(v, s, path, depth, w) == []
    decreases Left(depth, w), 10
  {
    var probe := new Ctx(budget);
    Check(v, s, path, probe, depth, w);
    assert [] + All(v, s, path, depth, w) == All(v, s, path, depth, w);
    issues := probe.issues;
  }

  method CheckContains(items: seq<Json>, s: Node, path: seq<PathStep>, ctx: Ctx, depth: nat, w: World)
    requires depth <= w.maxDepth && |ctx.issues| <= ctx.maxErrors
    modifies ctx
    ensures Collected(old(ctx.issues), old(ctx.truncated),
                      if s.contains.Some?
                      then ContainsIssues(s, Count(ContainedFlags(items, s.contains.value, path, depth, w, |items|)),
                                          path) else [],
                      ctx.issues, ctx.truncated, ctx.maxErrors)
    decreases Left(depth, w), 1
  {
    hide Collected, All, Flat;
    if s.contains.None? {
      CollectedNothing(ctx.issues, ctx.truncated, ctx.maxErrors);
      return;
    }
    var c := s.contains.value;
    var matches := 0;
    ghost var flags := ContainedFlags(items, c, path, depth, w, |items|);
    for i := 0 to |items|
      invariant ctx.issues == old(ctx.issues) && ctx.truncated == old(ctx.truncated)
      invariant matches == Count(flags[..i])
    {
      var issues := Probe(items[i], c, path, depth + 1, w, 1);
      assert flags[..i + 1] == flags[..i] + [flags[i]];
      assert flags[..i + 1][..i] == flags[..i];
      if issues == [] { matches := matches + 1; }
    }
    assert flags[..|items|] == flags;
    var least := if s.matching.least.Some? then s.matching.least.value else 1;
    Report2(ctx, matches < least, Plain(path, ContainsRule),
            s.matching.most.Some? && matches > s.matching.most.value, Plain(path, MaxContainsRule));
  }

  // ----- objects

  method CheckObject(members: seq<Member>, s: Node, path: seq<PathStep>, ctx: Ctx, depth: nat, w: World)
    requires depth <= w.maxDepth && |ctx.issues| <= ctx.maxErrors
    modifies ctx
    ensures Collected(old(ctx.issues), old(ctx.truncated), AllObject(members, s, path, depth, w), ctx.issues,
                      ctx.truncated, ctx.maxErrors)
    decreases Left(depth, w), 6
  {
    hide Collected, AllMembers, Missing, Flat;
    ghost var a, fa, k := ctx.issues, ctx.truncated, ctx.maxErrors;
    ghost var p1, p2 := SizeIssues(members, s, path), Flat(Missing(members, s, path, |s.required|));
    ghost var p3 := Flat(AllMembers(members, s, path, depth, w, |members|));
    Report2(ctx, s.size.least.Some? && |members| < s.size.least.value, Plain(path, MinPropertiesRule),
            s.size.most.Some? && |members| > s.size.most.value, Plain(path, MaxPropertiesRule));
    ghost var b, fb := ctx.issues, ctx.truncated;
    CollectedBound(a, fa, p1, b, fb, k);
    var stop := RequiredLoop(members, s, path, ctx);
    CollectedChain(a, fa, p1, b, fb, p2, ctx.issues, ctx.truncated, k);
    if stop {
      CollectedFull(a, fa, p1 + p2, ctx.issues, p3, k);
      return;
    }
    b, fb := ctx.issues, ctx.truncated;
    CollectedBound(a, fa, p1 + p2, b, fb, k);
    MemberLoop(members, s, path, ctx, depth, w);
    CollectedChain(a, fa, p1 + p2, b, fb, p3, ctx.issues, ctx.truncated, k);
  }

  method RequiredLoop(members: seq<Member>, s: Node, path: seq<PathStep>, ctx: Ctx) returns (stop: bool)
    requires |ctx.issues| <= ctx.maxErrors
    modifies ctx
    ensures Collected(old(ctx.issues), old(ctx.truncated), Flat(Missing(members, s, path, |s.required|)),
                      ctx.issues, ctx.truncated, ctx.maxErrors)
    ensures stop ==> ctx.truncated && |ctx.issues| == ctx.maxErrors
  {
    hide Collected, Flat, HasKey;
    ghost var a, fa, k := ctx.issues, ctx.truncated, ctx.maxErrors;
    ghost var parts := Missing(members, s, path, |s.required|);
    FlatNone(parts);
    CollectedNothing(a, fa, k);
    for i := 0 to |s.required|
      invariant |ctx.issues| <= k && Collected(a, fa, Flat(parts[..i]), ctx.issues, ctx.truncated, k)
    {
      ghost var b, fb := ctx.issues, ctx.truncated;
      var name := s.required[i];
      assert parts[i] == MissingAt(members, name, path);
      var missing := !HasKey(members, name);
      ctx.AddWhen(missing, Plain(path + [AtKey(name)], RequiredRule));
      CollectedBound(b, fb, parts[i], ctx.issues, ctx.truncated, k);
      CollectedStep(a, fa, parts, i, b, fb, ctx.issues, ctx.truncated, k);
      if missing {
        ghost var fc := ctx.truncated;
        stop := ctx.Full();
        if stop {
          CollectedMark(a, fa, Flat(parts[..i + 1]), ctx.issues, fc, k);
          CollectedLeave(a, fa, parts, i + 1, ctx.issues, k);
          return;
        }
      }
    }
    assert parts[..|s.required|] == parts;
    stop := false;
  }

  method MemberLoop(members: seq<Member>, s: Node, path: seq<PathStep>, ctx: Ctx, depth: nat, w: World)
    requires depth <= w.maxDepth && |ctx.issues| <= ctx.maxErrors
    modifies ctx
    ensures Collected(old(ctx.issues), old(ctx.truncated), Flat(AllMembers(members, s, path, depth, w, |members|)),
                      ctx.issues, ctx.truncated, ctx.maxErrors)
    decreases Left(depth, w), 3
  {
    hide Collected, AllMember, Flat;
    ghost var a, fa, k := ctx.issues, ctx.truncated, ctx.maxErrors;
    ghost var parts := AllMembers(members, s, path, depth, w, |members|);
    FlatNone(parts);
    CollectedNothing(a, fa, k);
    for i := 0 to |members|
      invariant |ctx.issues| <= k && Collected(a, fa, Flat(parts[..i]), ctx.issues, ctx.truncated, k)
    {
      ghost var b, fb := ctx.issues, ctx.truncated;
      CheckMember(members[i], s, path, ctx, depth, w);
      assert parts[i] == AllMember(members[i], s, path, depth, w);
      CollectedBound(b, fb, parts[i], ctx.issues, ctx.truncated, k);
      CollectedStep(a, fa, parts, i, b, fb, ctx.issues, ctx.truncated, k);
      ghost var fc := ctx.truncated;
      var stop := ctx.Full();
      if stop {
        CollectedMark(a, fa, Flat(parts[..i + 1]), ctx.issues, fc, k);
        CollectedLeave(a, fa, parts, i + 1, ctx.issues, k);
        return;
      }
    }
    assert parts[..|members|] == parts;
  }

  method CheckMember(m: Member, s: Node, path: seq<PathStep>, ctx: Ctx, depth: nat, w: World)
    requires depth <= w.maxDepth && |ctx.issues| <= ctx.maxErrors
    modifies ctx
    ensures Collected(old(ctx.issues), old(ctx.truncated), AllMember(m, s, path, depth, w), ctx.issues, ctx.truncated,
                      ctx.maxErrors)
    decreases Left(depth, w), 2
  {
    hide Collected, All, AllPatterns, Flat, Find, Claimed;
    ghost var a, fa, k := ctx.issues, ctx.truncated, ctx.maxErrors;
    var child := path + [AtKey(m.key)];
    var at := Find(s.properties, m.key);
    ghost var p1 := if s.names.Some? then All(Str(m.key), s.names.value, child, depth + 1, w) else [];
    ghost var p2 := if at < |s.properties| then All(m.value, s.properties[at].node, child, depth + 1, w) else [];
    CheckSome(Str(m.key), s.names, child, ctx, depth, w);
    ghost var b, fb := ctx.issues, ctx.truncated;
    CollectedBound(a, fa, p1, b, fb, k);
    CheckSome(m.value, if at < |s.properties| then Some(s.properties[at].node) else None, child, ctx, depth, w);
    CollectedChain(a, fa, p1, b, fb, p2, ctx.issues, ctx.truncated, k);
    b, fb := ctx.issues, ctx.truncated;
    CollectedBound(a, fa, p1 + p2, b, fb, k);
    CheckUndeclared(m, at < |s.properties|, s, child, ctx, depth, w);
    CollectedChain(a, fa, p1 + p2, b, fb, UndeclaredIssues(m, s, child, depth, w), ctx.issues, ctx.truncated, k);
    assert p1 + p2 + UndeclaredIssues(m, s, child, depth, w) == AllMember(m, s, path, depth, w);
  }

  ghost function UndeclaredIssues(m: Member, s: Node, child: seq<PathStep>, depth: nat, w: World): seq<Issue>
    requires depth <= w.maxDepth
  {
    Flat(AllPatterns(m.value, m.key, s, child, depth, w, |s.patterns|))
    + (if s.additional.Some? && !Claimed(s, m.key, w.lib) then All(m.value, s.additional.value, child, depth + 1, w)
       else [])
  }

  /** Patterns, and `additionalProperties` for a key that nothing has claimed. */
  method CheckUndeclared(m: Member, declared: bool, s: Node, child: seq<PathStep>, ctx: Ctx, depth: nat, w: World)
    requires depth <= w.maxDepth && |ctx.issues| <= ctx.maxErrors
             && declared == (Find(s.properties, m.key) < |s.properties|)
    modifies ctx
    ensures Collected(old(ctx.issues), old(ctx.truncated), UndeclaredIssues(m, s, child, depth, w), ctx.issues,
                      ctx.truncated, ctx.maxErrors)
    decreases Left(depth, w), 1, 1
  {
    hide Collected, All, AllPatterns, Flat, Find;
    ghost var a, fa, k := ctx.issues, ctx.truncated, ctx.maxErrors;
    ghost var p3 := Flat(AllPatterns(m.value, m.key, s, child, depth, w, |s.patterns|));
    ghost var p4 :=
      if s.additional.Some? && !Claimed(s, m.key, w.lib)
      then All(m.value, s.additional.value, child, depth + 1, w)
      else [];
    var any := PatternLoop(m.value, m.key, s, child, ctx, depth, w);
    ghost var b, fb := ctx.issues, ctx.truncated;
    CollectedBound(a, fa, p3, b, fb, k);
    CheckSome(m.value, if declared || any then None else s.additional, child, ctx, depth, w);
    CollectedChain(a, fa, p3, b, fb, p4, ctx.issues, ctx.truncated, k);
  }

  /** A subschema that may be absent. */
  method CheckSome(v: Json, s: Option<Node>, path: seq<PathStep>, ctx: Ctx, depth: nat, w: World)
    requires depth <= w.maxDepth && |ctx.issues| <= ctx.maxErrors
    modifies ctx
    ensures Collected(old(ctx.issues), old(ctx.truncated), if s.Some? then All(v, s.value, path, depth + 1, w) else [],
                      ctx.issues, ctx.truncated, ctx.maxErrors)
    decreases Left(depth, w), 0
  {
    if s.Some? {
      Check(v, s.value, path, ctx, depth + 1, w);
    } else {
      CollectedNothing(ctx.issues, ctx.truncated, ctx.maxErrors);
    }
  }

  method PatternLoop(v: Json, key: Text, s: Node, path: seq<PathStep>, ctx: Ctx, depth: nat, w: World)
    returns (any: bool)
    requires depth <= w.maxDepth && |ctx.issues| <= ctx.maxErrors
    modifies ctx
    ensures Collected(old(ctx.issues), old(ctx.truncated), Flat(AllPatterns(v, key, s, path, depth, w, |s.patterns|)),
                      ctx.issues, ctx.truncated, ctx.maxErrors)
    ensures any == AnyPattern(s, key, w.lib)
    decreases Left(depth, w), 1, 0
  {
    hide Collected, All, Flat;
    ghost var a, fa, k := ctx.issues, ctx.truncated, ctx.maxErrors;
    ghost var parts := AllPatterns(v, key, s, path, depth, w, |s.patterns|);
    any := false;
    FlatNone(parts);
    CollectedNothing(a, fa, k);
    for i := 0 to |s.patterns|
      invariant |ctx.issues| <= k && Collected(a, fa, Flat(parts[..i]), ctx.issues, ctx.truncated, k)
      invariant any <==> exists j :: 0 <= j < i && w.lib.matches(s.patterns[j].name, key)
    {
      ghost var b, fb := ctx.issues, ctx.truncated;
      var hit := w.lib.matches(s.patterns[i].name, key);
      if hit { any := true; }
      CheckSome(v, if hit then Some(s.patterns[i].node) else None, path, ctx, depth, w);
      CollectedBound(b, fb, parts[i], ctx.issues, ctx.truncated, k);
      CollectedStep(a, fa, parts, i, b, fb, ctx.issues, ctx.truncated, k);
    }
    assert parts[..|s.patterns|] == parts;
  }

  // ----- applicators

  method CheckApplicators(v: Json, s: Node, path: seq<PathStep>, ctx: Ctx, depth: nat, w: World)
    requires depth <= w.maxDepth && |ctx.issues| <= ctx.maxErrors
    modifies ctx
    ensures Collected(old(ctx.issues), old(ctx.truncated), AllApplicators(v, s, path, depth, w), ctx.issues,
                      ctx.truncated, ctx.maxErrors)
    decreases Left(depth, w), 6
  {
    hide Collected, All, Each, Flat, AlternativeIssues, NegatedIssues, AllApplicators;
    ghost var a, fa, k := ctx.issues, ctx.truncated, ctx.maxErrors;
    ghost var p1 := Flat(Each(v, s.allOf, path, depth, w, |s.allOf|));
    ghost var more := AlternativeIssues(v, s, path, depth, w) + NegatedIssues(v, s, path, depth, w);
    ApplicatorParts(v, s, path, depth, w);
    var stop := AllOfLoop(v, s.allOf, path, ctx, depth, w);
    if stop {
      CollectedFull(a, fa, p1, ctx.issues, more, k);
      return;
    }
    ghost var b, fb := ctx.issues, ctx.truncated;
    CollectedBound(a, fa, p1, b, fb, k);
    CheckAlternatives(v, s, path, ctx, depth, w);
    ghost var c, fc := ctx.issues, ctx.truncated;
    CollectedBound(b, fb, AlternativeIssues(v, s, path, depth, w), c, fc, k);
    CheckNegated(v, s, path, ctx, depth, w);
    CollectedChain(b, fb, AlternativeIssues(v, s, path, depth, w), c, fc, NegatedIssues(v, s, path, depth, w),
                   ctx.issues, ctx.truncated, k);
    CollectedChain(a, fa, p1, b, fb, more, ctx.issues, ctx.truncated, k);
  }

  lemma ApplicatorParts(v: Json, s: Node, path: seq<PathStep>, depth: nat, w: World)
    requires depth <= w.maxDepth
    ensures Flat(Each(v, s.allOf, path, depth, w, |s.allOf|))
            + (AlternativeIssues(v, s, path, depth, w) + NegatedIssues(v, s, path, depth, w))
         == AllApplicators(v, s, path, depth, w)
  {
    hide All, Each, Flat, AnyOfIssues, OneOfIssues, AllConditional;
  }

  ghost function AlternativeIssues(v: Json, s: Node, path: seq<PathStep>, depth: nat, w: World): seq<Issue>
    requires depth <= w.maxDepth
  {
    (if s.anyOf.Some? then AnyOfIssues(Each(v, s.anyOf.value, path, depth, w, |s.anyOf.value|), path) else [])
    + (if s.oneOf.Some? then OneOfIssues(Each(v, s.oneOf.value, path, depth, w, |s.oneOf.value|), path) else [])
  }

  ghost function NegatedIssues(v: Json, s: Node, path: seq<PathStep>, depth: nat, w: World): seq<Issue>
    requires depth <= w.maxDepth
  {
    (if s.negated.Some? then When(All(v, s.negated.value, path, depth + 1, w) == [], Plain(path, NotRule)) else [])
    + AllConditional(v, s, path, depth, w)
  }

  /** `not`, then `if` with its branches. */
  method CheckNegated(v: Json, s: Node, path: seq<PathStep>, ctx: Ctx, depth: nat, w: World)
    requires depth <= w.maxDepth && |ctx.issues| <= ctx.maxErrors
    modifies ctx
    ensures Collected(old(ctx.issues), old(ctx.truncated), NegatedIssues(v, s, path, depth, w), ctx.issues,
                      ctx.truncated, ctx.maxErrors)
    decreases Left(depth, w), 2
  {
    hide Collected, All, AllConditional;
    ghost var a, fa, k := ctx.issues, ctx.truncated, ctx.maxErrors;
    ghost var p4 := if s.negated.Some? then When(All(v, s.negated.value, path, depth + 1, w) == [],
                                                 Plain(path, NotRule)) else [];
    if s.negated.Some? {
      var issues := Probe(v, s.negated.value, path, depth + 1, w, 1);
      ctx.AddWhen(issues == [], Plain(path, NotRule));
    } else {
      CollectedNothing(a, fa, k);
    }
    ghost var b, fb := ctx.issues, ctx.truncated;
    CollectedBound(a, fa, p4, b, fb, k);
    CheckConditional(v, s, path, ctx, depth, w);
    CollectedChain(a, fa, p4, b, fb, AllConditional(v, s, path, depth, w), ctx.issues, ctx.truncated, k);
  }

  method CheckConditional(v: Json, s: Node, path: seq<PathStep>, ctx: Ctx, depth: nat, w: World)
    requires depth <= w.maxDepth && |ctx.issues| <= ctx.maxErrors
    modifies ctx
    ensures Collected(old(ctx.issues), old(ctx.truncated), AllConditional(v, s, path, depth, w), ctx.issues,
                      ctx.truncated, ctx.maxErrors)
    decreases Left(depth, w), 1
  {
    hide Collected, All;
    if s.test.None? {
      CollectedNothing(ctx.issues, ctx.truncated, ctx.maxErrors);
    } else {
      var issues := Probe(v, s.test.value, path, depth + 1, w, 1);
      CheckSome(v, if issues == [] then s.consequent else s.otherwise, path, ctx, depth, w);
    }
  }

  method AllOfLoop(v: Json, ss: seq<Node>, path: seq<PathStep>, ctx: Ctx, depth: nat, w: World) returns (stop: bool)
    requires depth <= w.maxDepth && |ctx.issues| <= ctx.maxErrors
    modifies ctx
    ensures Collected(old(ctx.issues), old(ctx.truncated), Flat(Each(v, ss, path, depth, w, |ss|)), ctx.issues,
                      ctx.truncated, ctx.maxErrors)
    ensures stop ==> ctx.truncated && |ctx.issues| == ctx.maxErrors
    decreases Left(depth, w), 1
  {
    hide Collected, All, Flat;
    ghost var a, fa, k := ctx.issues, ctx.truncated, ctx.maxErrors;
    ghost var parts := Each(v, ss, path, depth, w, |ss|);
    FlatNone(parts);
    CollectedNothing(a, fa, k);
    for i := 0 to |ss|
      invariant |ctx.issues| <= k && Collected(a, fa, Flat(parts[..i]), ctx.issues, ctx.truncated, k)
    {
      ghost var b, fb := ctx.issues, ctx.truncated;
      Check(v, ss[i], path, ctx, depth + 1, w);
      assert parts[i] == All(v, ss[i], path, depth + 1, w);
      CollectedBound(b, fb, parts[i], ctx.issues, ctx.truncated, k);
      CollectedStep(a, fa, parts, i, b, fb, ctx.issues, ctx.truncated, k);
      ghost var fc := ctx.truncated;
      stop := ctx.Full();
      if stop {
        CollectedMark(a, fa, Flat(parts[..i + 1]), ctx.issues, fc, k);
        CollectedLeave(a, fa, parts, i + 1, ctx.issues, k);
        return;
      }
    }
    assert parts[..|ss|] == parts;
    stop := false;
  }

  method CheckAlternatives(v: Json, s: Node, path: seq<PathStep>, ctx: Ctx, depth: nat, w: World)
    requires depth <= w.maxDepth && |ctx.issues| <= ctx.maxErrors
    modifies ctx
    ensures Collected(old(ctx.issues), old(ctx.truncated), AlternativeIssues(v, s, path, depth, w), ctx.issues,
                      ctx.truncated, ctx.maxErrors)
    decreases Left(depth, w), 2
  {
    hide Collected, All, Each, Flat, Count, Passing;
    ghost var a, fa, k := ctx.issues, ctx.truncated, ctx.maxErrors;
    ghost var p2 := if s.anyOf.Some? then AnyOfIssues(Each(v, s.anyOf.value, path, depth, w, |s.anyOf.value|), path)
        else [];
    ghost var p3 := if s.oneOf.Some? then OneOfIssues(Each(v, s.oneOf.value, path, depth, w, |s.oneOf.value|), path)
        else [];
    if s.anyOf.Some? {
      var ok, failures := ProbeAny(v, s.anyOf.value, path, depth, w);
      ctx.AddWhen(!ok, Issue(path, AnyOfRule, Take(failures, 3)));
    } else {
      CollectedNothing(a, fa, k);
    }
    ghost var b, fb := ctx.issues, ctx.truncated;
    CollectedBound(a, fa, p2, b, fb, k);
    if s.oneOf.Some? {
      var matches, failures := ProbeOne(v, s.oneOf.value, path, depth, w);
      ctx.AddWhen(matches != 1, Issue(path, OneOfRule(matches), if matches == 0 then Take(failures, 3) else []));
    } else {
      CollectedNothing(b, fb, k);
    }
    CollectedChain(a, fa, p2, b, fb, p3, ctx.issues, ctx.truncated, k);
  }

  /** Tries alternatives until one passes; the failures quoted are those an unbounded run would quote. */
  method ProbeAny(v: Json, ss: seq<Node>, path: seq<PathStep>, depth: nat, w: World)
    returns (ok: bool, failures: seq<Issue>)
    requires depth <= w.maxDepth
    ensures var r := Each(v, ss, path, depth, w, |ss|);
            && (!ok <==> forall i :: 0 <= i < |r| ==> r[i] != [])
            && (!ok ==> Take(failures, 3) == Take(Flat(r), 3))
    decreases Left(depth, w), 1
  {
    hide All, Flat, Take;
    ghost var r := Each(v, ss, path, depth, w, |ss|);
    ghost var cut: seq<seq<Issue>> := [];
    ok, failures := false, [];
    FlatNone(cut);
    for i := 0 to |ss|
      invariant |cut| == i && failures == Flat(cut)
      invariant forall j :: 0 <= j < i ==> r[j] != [] && cut[j] == Take(r[j], 3)
    {
      assert r[i] == All(v, ss[i], path, depth + 1, w);
      var issues := Probe(v, ss[i], path, depth + 1, w, 3);
      if issues == [] {
        assert Each(v, ss, path, depth, w, |ss|)[i] == [];
        ok := true;
        return;
      }
      FlatAppend(cut, issues);
      failures, cut := failures + issues, cut + [issues];
    }
    TakeParts(r, cut, 3);
  }

  method ProbeOne(v: Json, ss: seq<Node>, path: seq<PathStep>, depth: nat, w: World)
    returns (matches: nat, failures: seq<Issue>)
    requires depth <= w.maxDepth
    ensures var r := Each(v, ss, path, depth, w, |ss|);
            matches == Count(Passing(r)) && (matches == 0 ==> Take(failures, 3) == Take(Flat(r), 3))
    decreases Left(depth, w), 1
  {
    hide All, Flat, Take;
    ghost var r := Each(v, ss, path, depth, w, |ss|);
    ghost var cut: seq<seq<Issue>> := [];
    ghost var flags := Passing(r);
    matches, failures := 0, [];
    FlatNone(cut);
    for i := 0 to |ss|
      invariant |cut| == i && failures == Flat(cut) && matches == Count(flags[..i])
      invariant forall j :: 0 <= j < i ==> cut[j] == Take(r[j], 3)
    {
      assert r[i] == All(v, ss[i], path, depth + 1, w);
      var issues := Probe(v, ss[i], path, depth + 1, w, 3);
      assert flags[..i + 1][..i] == flags[..i] && flags[..i + 1][i] == flags[i];
      if issues == [] { matches := matches + 1; }
      FlatAppend(cut, issues);
      failures, cut := failures + issues, cut + [issues];
      assert failures == Flat(cut);
    }
    assert flags[..|ss|] == flags;
    TakeParts(r, cut, 3);
  }

  // ----- the entry point

  /** For every budget: the first issues of the unbounded run, a flag that is honest, and a verdict. */
  method Validate(value: Json, schema: Node, maxErrors: nat, w: World)
    returns (ok: bool, issues: seq<Issue>, truncated: bool)
    ensures issues == Take(All(value, schema, [], 0, w), maxErrors)
    ensures !truncated ==> issues == All(value, schema, [], 0, w)
    ensures truncated ==> |issues| == maxErrors
    ensures maxErrors >= 1 ==> (ok <==> Valid(value, schema, 0, w))
  {
    var ctx := new Ctx(maxErrors);
    Check(value, schema, [], ctx, 0, w);
    assert [] + All(value, schema, [], 0, w) == All(value, schema, [], 0, w);
    NoIssueIffValid(value, schema, [], 0, w);
    ok, issues, truncated := ctx.issues == [], ctx.issues, ctx.truncated;
  }
}
