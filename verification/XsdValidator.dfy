/**
 The validator as it runs: an index moved over the children by loops, issues counted in a shared
 context. Each procedure computes what the model's functions say, so an accepted document conforms.
 */
module XsdValidator {
  import opened Text
  import opened XsdModel
  import opened XsdSoundness

  class Ctx {
    var issues: nat
    const w: World

    constructor (w: World)
      ensures issues == 0 && this.w == w
    {
      issues, this.w := 0, w;
    }

    method AddIssue()
      modifies this
      ensures issues == Report(old(issues), w)
    {
      if issues < w.maxErrors { issues := issues + 1; }
    }

    method AddMany(k: nat)
      modifies this
      ensures issues == ReportMany(old(issues), k, w)
    {
      for i := 0 to k
        invariant issues == ReportMany(old(issues), i, w)
      {
        AddIssue();
      }
    }
  }

  method CheckElementRun(e: Xml, d: Decl, depth: nat, ctx: Ctx)
    modifies ctx
    ensures ctx.issues == CheckElement(e, d, depth, old(ctx.issues), ctx.w)
    decreases e, 2
  {
    if ctx.issues >= ctx.w.maxErrors { return; }
    if depth > ctx.w.maxDepth {
      ctx.AddIssue();
      return;
    }
    if e.nil {
      if !d.nillable {
        ctx.AddIssue();
      } else if e.children != [] || e.text != [] {
        ctx.AddIssue();
      }
      return;
    }
    if d.fixed.Some? && e.text != d.fixed.value { ctx.AddIssue(); }
    CheckTypeRun(e, d.typ, depth, ctx);
  }

  method CheckTypeRun(e: Xml, t: TypeRef, depth: nat, ctx: Ctx)
    modifies ctx
    ensures ctx.issues == CheckType(e, t, depth, old(ctx.issues), ctx.w)
    decreases e, 1
  {
    match t {
      case AnyType => return;
      case Builtin(_) => CheckSimpleRun(e, t, ctx);
      case Named(name) =>
        if name !in ctx.w.types {
          ctx.AddIssue();
        } else if ctx.w.types[name].SimpleType? {
          CheckSimpleRun(e, t, ctx);
        } else {
          CheckComplexRun(e, ctx.w.types[name].content, depth, ctx);
        }
    }
  }

  method CheckSimpleRun(e: Xml, t: TypeRef, ctx: Ctx)
    modifies ctx
    ensures ctx.issues == CheckSimple(e, t, old(ctx.issues), ctx.w)
  {
    if e.children != [] { ctx.AddIssue(); } else { ctx.AddMany(ctx.w.lib.valueIssues(e, t)); }
  }

  method CheckComplexRun(e: Xml, c: ComplexType, depth: nat, ctx: Ctx)
    modifies ctx
    ensures ctx.issues == CheckComplex(e, c, depth, old(ctx.issues), ctx.w)
    decreases e, 0
  {
    ctx.AddMany(ctx.w.lib.attributeIssues(e, c));
    if ctx.issues >= ctx.w.maxErrors { return; }
    if c.textType.Some? {
      CheckSimpleRun(e, c.textType.value, ctx);
      return;
    }
    if c.particle.None? {
      if e.children != [] { ctx.AddIssue(); }
      if !c.mixed && e.text != [] { ctx.AddIssue(); }
      return;
    }
    if !c.mixed && e.text != [] && e.children != [] { ctx.AddIssue(); }
    var end := MatchParticleRun(c.particle.value, e, 0, depth, ctx);
    if end.Some? && end.value < |e.children| { ctx.AddIssue(); }
  }

  method MatchParticleRun(p: Particle, e: Xml, start: nat, depth: nat, ctx: Ctx) returns (end: Option<nat>)
    requires start <= |e.children|
    modifies ctx
    ensures Outcome(end, ctx.issues) == MatchParticle(p, e, start, depth, old(ctx.issues), ctx.w)
    decreases e, 0, p, 3
  {
    var index, repetitions := start, 0;
    while Below(repetitions, p.max)
      invariant start <= index <= |e.children|
      invariant MatchLoop(p, e, index, repetitions, depth, ctx.issues, ctx.w)
             == MatchLoop(p, e, start, 0, depth, old(ctx.issues), ctx.w)
      decreases |e.children| - index
    {
      if repetitions >= p.min && !CanStart(p, e, index) { break; }
      var next := MatchOnceRun(p, e, index, depth, ctx);
      if next.None? || (next.value == index && !p.Element?) {
        if repetitions < p.min {
          ctx.AddIssue();
          return None;
        }
        return Some(index);
      }
      index, repetitions := next.value, repetitions + 1;
    }
    if repetitions < p.min {
      ctx.AddIssue();
      return None;
    }
    return Some(index);
  }

  method MatchOnceRun(p: Particle, e: Xml, start: nat, depth: nat, ctx: Ctx) returns (end: Option<nat>)
    requires start <= |e.children|
    modifies ctx
    ensures Outcome(end, ctx.issues) == MatchOnce(p, e, start, depth, old(ctx.issues), ctx.w)
    decreases e, 0, p, 1
  {
    match p {
      case Element(_, _, d) =>
        if start >= |e.children| || e.children[start].qname != d.qname { return None; }
        CheckElementRun(e.children[start], d, depth + 1, ctx);
        return Some(start + 1);
      case Wildcard(_, _) => return if start < |e.children| then Some(start + 1) else None;
      case Group(Sequence, _, _, _) => end := SequenceRun(p, e, start, depth, ctx);
      case Group(Choice, _, _, _) => end := ChoiceRun(p, e, start, depth, ctx);
      case Group(Every, _, _, _) => end := EveryRun(p, e, start, depth, ctx);
    }
  }

  method SequenceRun(p: Particle, e: Xml, start: nat, depth: nat, ctx: Ctx) returns (end: Option<nat>)
    requires p.Group? && start <= |e.children|
    modifies ctx
    ensures Outcome(end, ctx.issues) == MatchSequence(p, 0, e, start, depth, old(ctx.issues), ctx.w)
    decreases e, 0, p, 0
  {
    var index: nat := start;
    for k := 0 to |p.items|
      invariant index <= |e.children|
      invariant MatchSequence(p, k, e, index, depth, ctx.issues, ctx.w)
             == MatchSequence(p, 0, e, start, depth, old(ctx.issues), ctx.w)
    {
      var next := MatchParticleRun(p.items[k], e, index, depth, ctx);
      if next.None? { return None; }
      index := next.value;
    }
    return Some(index);
  }

  method ChoiceRun(p: Particle, e: Xml, start: nat, depth: nat, ctx: Ctx) returns (end: Option<nat>)
    requires p.Group? && start <= |e.children|
    modifies ctx
    ensures Outcome(end, ctx.issues) == MatchChoice(p, 0, e, start, depth, old(ctx.issues), ctx.w)
    decreases e, 0, p, 0
  {
    for k := 0 to |p.items|
      invariant MatchChoice(p, k, e, start, depth, ctx.issues, ctx.w)
             == MatchChoice(p, 0, e, start, depth, old(ctx.issues), ctx.w)
    {
      if CanStart(p.items[k], e, start) {
        var next := MatchParticleRun(p.items[k], e, start, depth, ctx);
        if next.Some? { return next; }
      }
    }
    for k := 0 to |p.items|
      invariant forall i :: 0 <= i < k ==> p.items[i].min != 0
    {
      if p.items[k].min == 0 { return Some(start); }
    }
    return None;
  }

  method EveryRun(p: Particle, e: Xml, start: nat, depth: nat, ctx: Ctx) returns (end: Option<nat>)
    requires p.Group? && start <= |e.children|
    modifies ctx
    ensures Outcome(end, ctx.issues) == MatchEvery(p, {}, e, start, depth, old(ctx.issues), ctx.w)
    decreases e, 0, p, 0
  {
    var index: nat := start;
    var seen: set<nat> := {};
    while index < |e.children|
      invariant index <= |e.children|
      invariant MatchEvery(p, seen, e, index, depth, ctx.issues, ctx.w)
             == MatchEvery(p, {}, e, start, depth, old(ctx.issues), ctx.w)
      decreases |e.children| - index
    {
      var item := Chosen(p.items, e.children[index].qname);
      if item.None? || item.value >= |p.items| || item.value in seen {
        end := MissingRun(p, seen, index, ctx);
        return;
      }
      seen := seen + {item.value};
      var next := MatchParticleRun(p.items[item.value], e, index, depth, ctx);
      if next.None? || next.value == index {
        end := MissingRun(p, seen, index, ctx);
        return;
      }
      index := next.value;
    }
    end := MissingRun(p, seen, index, ctx);
  }

  method MissingRun(p: Particle, seen: set<nat>, index: nat, ctx: Ctx) returns (end: Option<nat>)
    requires p.Group?
    modifies ctx
    ensures Outcome(end, ctx.issues) == Missing(p, seen, index, old(ctx.issues), ctx.w)
  {
    for k := 0 to |p.items|
      invariant ctx.issues == old(ctx.issues)
      invariant forall i :: 0 <= i < k ==> i in seen || p.items[i].min == 0
    {
      if k !in seen && p.items[k].min > 0 {
        ctx.AddIssue();
        return None;
      }
    }
    return Some(index);
  }

  /**
   The entry point: with at least one error allowed, a document is accepted only if a global element declares it and it
   conforms.
   */
  method ValidateXmlElement(root: Xml, elements: map<Text, Decl>, w: World) returns (ok: bool)
    ensures ok <==> root.qname in elements && Accepts(root, elements[root.qname], w)
    ensures ok && w.maxErrors >= 1 ==> Conforms(root, elements[root.qname], w)
  {
    if root.qname !in elements { return false; }
    var d := elements[root.qname];
    var ctx := new Ctx(w);
    CheckElementRun(root, d, 0, ctx);
    ok := ctx.issues == 0;
    if ok && w.maxErrors >= 1 { AcceptedConforms(root, d, w); }
  }
}
