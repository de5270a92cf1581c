/**
 Which declared operation is this request? The index by segment count with its score-pruned loop,
 against a plain statement of the winner: among all operations that serve the request, the one with
 the most literal segments, its own method before a GET answering a HEAD, the first declared on ties.
 */
module OperationMatch {
  import opened Text

  const SLASH: Unit := 47
  const LEFT_CURLY: Unit := 123
  const RIGHT_CURLY: Unit := 125
  const HEAD := Ascii("HEAD")
  const GET := Ascii("GET")

  datatype Operation = Operation(id: Text, verb: Text, template: Text)

  // ----- declarations

  function Flush(word: Text): seq<Text> { if word == [] then [] else [word] }

  /** The non-empty pieces between slashes; `word` is the piece being read. */
  function SegmentsFrom(path: Text, word: Text): seq<Text>
    decreases |path|
  {
    if path == [] then Flush(word)
    else if path[0] == SLASH then Flush(word) + SegmentsFrom(path[1..], [])
    else SegmentsFrom(path[1..], word + [path[0]])
  }

  function SegmentsOf(path: Text): seq<Text> { SegmentsFrom(path, []) }

  predicate IsParam(segment: Text) {
    |segment| > 2 && segment[0] == LEFT_CURLY && segment[|segment| - 1] == RIGHT_CURLY
  }

  function ParamName(segment: Text): Option<Text> {
    if IsParam(segment) then Some(segment[1..|segment| - 1]) else None
  }

  function UpperChar(c: Unit): Unit { if 97 <= c <= 122 then c - 32 else c }

  function Upper(s: Text): Text { seq(|s|, i requires 0 <= i < |s| => UpperChar(s[i])) }

  // ----- the winner, stated plainly

  predicate Exact(op: Operation, verb: Text) { Upper(op.verb) == verb }

  predicate VerbServes(op: Operation, verb: Text) { Exact(op, verb) || (verb == HEAD && Upper(op.verb) == GET) }

  predicate PathServes(segments: seq<Text>, parts: seq<Text>) {
    |segments| == |parts| && forall i :: 0 <= i < |parts| ==> IsParam(segments[i]) || segments[i] == parts[i]
  }

  predicate Serves(op: Operation, verb: Text, parts: seq<Text>) {
    VerbServes(op, verb) && PathServes(SegmentsOf(op.template), parts)
  }

  function Literals(segments: seq<Text>): nat {
    if segments == [] then 0
    else Literals(segments[..|segments| - 1]) + (if IsParam(segments[|segments| - 1]) then 0 else 1)
  }

  /** More literal segments; with as many, its own method before a GET standing in. */
  predicate Better(a: Operation, b: Operation, verb: Text) {
    var la, lb := Literals(SegmentsOf(a.template)), Literals(SegmentsOf(b.template));
    la > lb || (la == lb && Exact(a, verb) && !Exact(b, verb))
  }

  predicate Beats(ops: seq<Operation>, i: nat, j: nat, verb: Text)
    requires i < |ops| && j < |ops|
  {
    Better(ops[i], ops[j], verb) || (!Better(ops[j], ops[i], verb) && i <= j)
  }

  predicate Wins(ops: seq<Operation>, i: nat, verb: Text, parts: seq<Text>) {
    && i < |ops| && Serves(ops[i], verb, parts)
    && forall j: nat :: j < |ops| && Serves(ops[j], verb, parts) ==> Beats(ops, i, j, verb)
  }

  lemma OneWinner(ops: seq<Operation>, i: nat, j: nat, verb: Text, parts: seq<Text>)
    requires Wins(ops, i, verb, parts) && Wins(ops, j, verb, parts)
    ensures i == j
  {
    hide Serves, Literals;
    assert Beats(ops, i, j, verb) && Beats(ops, j, i, verb);
  }

  /** Each variable has the decoded part at its last place in the template. */
  predicate Binds(params: map<Text, Text>, segments: seq<Text>, parts: seq<Text>, decode: Text -> Text)
    requires |segments| == |parts|
  {
    && (forall name :: name in params ==> exists k :: 0 <= k < |segments| && ParamName(segments[k]) == Some(name))
    && (forall k :: 0 <= k < |segments| && LastNamed(segments, k) ==>
          ParamName(segments[k]).value in params && params[ParamName(segments[k]).value] == decode(parts[k]))
  }

  predicate LastNamed(segments: seq<Text>, k: nat)
    requires k < |segments|
  {
    ParamName(segments[k]).Some? &&
    forall m :: k < m < |segments| ==> ParamName(segments[m]) != ParamName(segments[k])
  }

  // ----- the compiled index

  datatype Compiled = Compiled(operation: Operation, verb: Text, segments: seq<Text>, params: seq<Option<Text>>,
                               score: int)

  predicate CompiledFrom(c: Compiled, op: Operation) {
    && c.operation == op && c.verb == Upper(op.verb) && c.segments == SegmentsOf(op.template)
    && |c.params| == |c.segments| && (forall i :: 0 <= i < |c.params| ==> c.params[i] == ParamName(c.segments[i]))
    && c.score == 2 * Literals(c.segments) + 1
  }

  type Index = map<nat, seq<Compiled>>

  /** The places of the operations with n segments, in declaration order. */
  ghost function Places(ops: seq<Operation>, n: nat): seq<nat> {
    if ops == [] then []
    else Places(ops[..|ops| - 1], n) + (if |SegmentsOf(ops[|ops| - 1].template)| == n then [|ops| - 1] else [])
  }

  predicate BucketOk(bucket: seq<Compiled>, ops: seq<Operation>, places: seq<nat>) {
    |bucket| == |places| &&
    forall k :: 0 <= k < |bucket| ==> places[k] < |ops| && CompiledFrom(bucket[k], ops[places[k]])
  }

  ghost predicate IndexOk(index: Index, ops: seq<Operation>) {
    forall n: nat :: BucketOk(BucketOf(index, n), ops, Places(ops, n))
  }

  function BucketOf(index: Index, n: nat): seq<Compiled> { if n in index then index[n] else [] }

  lemma {:induction false} PlacesExact(ops: seq<Operation>, n: nat)
    ensures forall k :: 0 <= k < |Places(ops, n)| ==> Places(ops, n)[k] < |ops|
    ensures forall k, m :: 0 <= k < m < |Places(ops, n)| ==> Places(ops, n)[k] < Places(ops, n)[m]
    ensures forall i: nat :: i < |ops| && |SegmentsOf(ops[i].template)| == n ==> exists k ::
              0 <= k < |Places(ops, n)| && Places(ops, n)[k] == i
  {
    hide SegmentsOf;
    if ops != [] {
      var last := |ops| - 1;
      var front := Places(ops[..last], n);
      PlacesExact(ops[..last], n);
      forall i: nat | i < |ops| && |SegmentsOf(ops[i].template)| == n
        ensures exists k :: 0 <= k < |Places(ops, n)| && Places(ops, n)[k] == i
      {
        if i == last {
          assert Places(ops, n)[|front|] == i;
        } else {
          assert ops[..last][i] == ops[i];
          var k :| 0 <= k < |front| && front[k] == i;
          assert Places(ops, n)[k] == i;
        }
      }
    }
  }

  method CompileOne(op: Operation) returns (c: Compiled)
    ensures CompiledFrom(c, op)
  {
    var segments := SegmentsOf(op.template);
    var params: seq<Option<Text>>, literals := [], 0;
    hide SegmentsOf, Upper;
    for i := 0 to |segments|
      invariant |params| == i && forall k :: 0 <= k < i ==> params[k] == ParamName(segments[k])
      invariant literals == Literals(segments[..i])
    {
      assert segments[..i + 1][..i] == segments[..i];
      params := params + [ParamName(segments[i])];
      if params[i].None? { literals := literals + 1; }
    }
    assert segments[..|segments|] == segments;
    c := Compiled(op, Upper(op.verb), segments, params, literals * 2 + 1);
  }

  lemma IndexGrows(index: Index, ops: seq<Operation>, i: nat, c: Compiled)
    requires i < |ops| && IndexOk(index, ops[..i]) && CompiledFrom(c, ops[i])
    ensures var n := |c.segments|; IndexOk(index[n := BucketOf(index, n) + [c]], ops[..i + 1])
  {
    assert |SegmentsOf(ops[i].template)| == |c.segments|;
    hide SegmentsOf, CompiledFrom, Places, BucketOk;
    var n := |c.segments|;
    var grown := index[n := BucketOf(index, n) + [c]];
    forall m: nat ensures BucketOk(BucketOf(grown, m), ops[..i + 1], Places(ops[..i + 1], m)) {
      var places := Places(ops[..i], m);
      assert BucketOk(BucketOf(index, m), ops[..i], places);
      PlacesGrow(ops, i, m);
      if m == n {
        BucketGrows(BucketOf(index, m), ops, i, places, c);
      } else {
        BucketStays(BucketOf(index, m), ops, i, places);
        assert Places(ops[..i + 1], m) == places;
      }
    }
  }

  lemma BucketStays(bucket: seq<Compiled>, ops: seq<Operation>, i: nat, places: seq<nat>)
    requires i < |ops| && BucketOk(bucket, ops[..i], places)
    ensures BucketOk(bucket, ops[..i + 1], places)
  {
    hide CompiledFrom;
    assert forall k :: 0 <= k < i ==> ops[..i][k] == ops[..i + 1][k];
  }

  lemma BucketGrows(bucket: seq<Compiled>, ops: seq<Operation>, i: nat, places: seq<nat>, c: Compiled)
    requires i < |ops| && BucketOk(bucket, ops[..i], places) && CompiledFrom(c, ops[i])
    ensures BucketOk(bucket + [c], ops[..i + 1], places + [i])
  {
    hide CompiledFrom;
    BucketStays(bucket, ops, i, places);
    assert ops[..i + 1][i] == ops[i];
  }

  lemma PlacesGrow(ops: seq<Operation>, i: nat, n: nat)
    requires i < |ops|
    ensures Places(ops[..i + 1], n) == Places(ops[..i], n) + (if |SegmentsOf(ops[i].template)| == n then [i] else [])
  {
    assert ops[..i + 1][..i] == ops[..i];
  }

  method CompileOperations(ops: seq<Operation>) returns (index: Index)
    ensures IndexOk(index, ops)
  {
    hide CompiledFrom;
    index := map[];
    for i := 0 to |ops|
      invariant IndexOk(index, ops[..i])
    {
      var c := CompileOne(ops[i]);
      IndexGrows(index, ops, i, c);
      var n := |c.segments|;
      index := index[n := BucketOf(index, n) + [c]];
    }
    assert ops[..|ops|] == ops;
  }

  // ----- matching

  method SegmentsMatch(c: Compiled, ghost op: Operation, parts: seq<Text>) returns (ok: bool)
    requires CompiledFrom(c, op) && |c.segments| == |parts|
    ensures ok == PathServes(SegmentsOf(op.template), parts)
  {
    for i := 0 to |parts|
      invariant forall k :: 0 <= k < i ==> IsParam(c.segments[k]) || c.segments[k] == parts[k]
    {
      if c.params[i].None? && c.segments[i] != parts[i] { return false; }
    }
    return true;
  }

  /** The running best after `k` candidates: none, or the place that beats every server so far. */
  ghost predicate Leading(ops: seq<Operation>, places: seq<nat>, k: nat, best: int, verb: Text, parts: seq<Text>)
    requires k <= |places| && -1 <= best < k
    requires forall m :: 0 <= m < |places| ==> places[m] < |ops|
  {
    if best < 0 then forall m :: 0 <= m < k ==> !Serves(ops[places[m]], verb, parts)
    else
      && Serves(ops[places[best]], verb, parts)
      && forall m :: 0 <= m < k && Serves(ops[places[m]], verb, parts) ==> Beats(ops, places[best], places[m], verb)
  }

  function Score(op: Operation, verb: Text): int {
    2 * Literals(SegmentsOf(op.template)) + (if Exact(op, verb) then 1 else 0)
  }

  lemma ScoreOrders(a: Operation, b: Operation, verb: Text)
    ensures Better(a, b, verb) <==> Score(a, verb) > Score(b, verb)
  {
    hide Literals, SegmentsOf, Upper;
  }

  method FindBest(bucket: seq<Compiled>, ghost ops: seq<Operation>, ghost places: seq<nat>, verb: Text,
                  parts: seq<Text>)
    returns (best: int)
    requires BucketOk(bucket, ops, places)
    requires forall k, m :: 0 <= k < m < |places| ==> places[k] < places[m]
    requires forall k :: 0 <= k < |bucket| ==> |bucket[k].segments| == |parts|
    ensures -1 <= best < |bucket| && Leading(ops, places, |places|, best, verb, parts)
  {
    best := -1;
    var bestScore := -1;
    for k := 0 to |bucket|
      invariant -1 <= best < k && Leading(ops, places, k, best, verb, parts)
      invariant bestScore == if best < 0 then -1 else Score(ops[places[best]], verb)
    {
      hide SegmentsOf, PathServes, Literals, Upper;
      var candidate := bucket[k];
      ghost var op := ops[places[k]];
      assert CompiledFrom(candidate, op);
      if best >= 0 { ScoreOrders(ops[places[best]], op, verb); ScoreOrders(op, ops[places[best]], verb); }
      var exact := candidate.verb == verb;
      if !exact && !(verb == HEAD && candidate.verb == GET) { continue; }
      var score := if exact then candidate.score else candidate.score - 1;
      assert score == Score(op, verb);
      if score <= bestScore { continue; }
      var ok := SegmentsMatch(candidate, op, parts);
      if !ok { continue; }
      LeadChanges(ops, places, k, best, verb, parts);
      bestScore := score;
      best := k;
    }
  }

  lemma LeadChanges(ops: seq<Operation>, places: seq<nat>, k: nat, best: int, verb: Text, parts: seq<Text>)
    requires -1 <= best < k < |places| && (forall m :: 0 <= m < |places| ==> places[m] < |ops|)
    requires Leading(ops, places, k, best, verb, parts) && Serves(ops[places[k]], verb, parts)
    requires best >= 0 ==> Score(ops[places[k]], verb) > Score(ops[places[best]], verb)
    ensures Leading(ops, places, k + 1, k, verb, parts)
  {
    hide Serves, Score, Better;
    forall m | 0 <= m < k + 1 && Serves(ops[places[m]], verb, parts) ensures Beats(ops, places[k], places[m], verb) {
      ScoreOrders(ops[places[k]], ops[places[m]], verb);
      if best >= 0 {
        ScoreOrders(ops[places[m]], ops[places[best]], verb);
        ScoreOrders(ops[places[best]], ops[places[m]], verb);
      }
    }
  }

  method ReadParams(c: Compiled, parts: seq<Text>, decode: Text -> Text) returns (params: map<Text, Text>)
    requires CompiledFrom(c, c.operation) && |c.segments| == |parts|
    ensures Binds(params, c.segments, parts, decode)
  {
    params := map[];
    for i := 0 to |parts|
      invariant Binds(params, c.segments[..i], parts[..i], decode)
    {
      hide IsParam;
      var name := c.params[i];
      BindsNext(params, c.segments, parts, i, decode);
      if name.Some? { params := params[name.value := decode(parts[i])]; }
    }
    assert c.segments[..|parts|] == c.segments && parts[..|parts|] == parts;
  }

  lemma BindsNext(params: map<Text, Text>, segments: seq<Text>, parts: seq<Text>, i: nat,
                  decode: Text -> Text)
    requires i < |segments| == |parts| && Binds(params, segments[..i], parts[..i], decode)
    ensures var name := ParamName(segments[i]);
            Binds(if name.Some? then params[name.value := decode(parts[i])] else params, segments[..i + 1],
                  parts[..i + 1], decode)
  {
    hide ParamName;
    var name := ParamName(segments[i]);
    var next := if name.Some? then params[name.value := decode(parts[i])] else params;
    var s, t := segments[..i + 1], segments[..i];
    assert forall k :: 0 <= k < i ==> s[k] == t[k];
    forall k | 0 <= k < |s| && LastNamed(s, k)
      ensures ParamName(s[k]).value in next && next[ParamName(s[k]).value] == decode(parts[..i + 1][k])
    {
      if k < i { assert LastNamed(t, k); assert ParamName(s[i]) != ParamName(s[k]); }
    }
    forall n | n in next ensures exists k :: 0 <= k < |s| && ParamName(s[k]) == Some(n) {
      if name == Some(n) {
        assert ParamName(s[i]) == Some(n);
      } else {
        var k :| 0 <= k < |t| && ParamName(t[k]) == Some(n);
        assert ParamName(s[k]) == Some(n);
      }
    }
  }

  datatype Match = Match(operation: Operation, params: map<Text, Text>)

  /** The answer a plain search over all declarations would give. */
  ghost predicate RightMatch(r: Option<Match>, ops: seq<Operation>, verb: Text, parts: seq<Text>,
                             decode: Text -> Text) {
    match r
    case None => forall i: nat :: i < |ops| ==> !Serves(ops[i], verb, parts)
    case Some(m) => exists i: nat ::
          Wins(ops, i, verb, parts) && m.operation == ops[i]
              && Binds(m.params, SegmentsOf(ops[i].template), parts, decode)
  }

  lemma LeaderWins(ops: seq<Operation>, best: int, verb: Text, parts: seq<Text>)
    requires forall m :: 0 <= m < |Places(ops, |parts|)| ==> Places(ops, |parts|)[m] < |ops|
    requires -1 <= best < |Places(ops, |parts|)|
    requires Leading(ops, Places(ops, |parts|), |Places(ops, |parts|)|, best, verb, parts)
    ensures best < 0 ==> forall i: nat :: i < |ops| ==> !Serves(ops[i], verb, parts)
    ensures best >= 0 ==> Wins(ops, Places(ops, |parts|)[best], verb, parts)
  {
    hide Places, Beats, VerbServes, SegmentsOf;
    var places := Places(ops, |parts|);
    PlacesExact(ops, |parts|);
    forall i: nat | i < |ops| && Serves(ops[i], verb, parts)
      ensures best >= 0 && Beats(ops, places[best], i, verb)
    {
      var k :| 0 <= k < |places| && places[k] == i;
    }
  }

  method MatchCompiled(index: Index, ghost ops: seq<Operation>, verb: Text, path: Text, decode: Text -> Text)
    returns (r: Option<Match>)
    requires IndexOk(index, ops)
    ensures RightMatch(r, ops, Upper(verb), SegmentsOf(path), decode)
  {
    hide Places, Serves, Beats, SegmentsOf, Upper, Binds;
    var wanted := Upper(verb);
    var parts := SegmentsOf(path);
    ghost var places := Places(ops, |parts|);
    PlacesExact(ops, |parts|);
    assert BucketOk(BucketOf(index, |parts|), ops, places);
    var candidates := BucketOf(index, |parts|);
    forall k | 0 <= k < |candidates| ensures |candidates[k].segments| == |parts| { PlacesArity(ops, |parts|, k); }
    var best := FindBest(candidates, ops, places, wanted, parts);
    LeaderWins(ops, best, wanted, parts);
    if best < 0 { return None; }
    var params := ReadParams(candidates[best], parts, decode);
    return Some(Match(candidates[best].operation, params));
  }

  lemma {:induction false} PlacesArity(ops: seq<Operation>, n: nat, k: nat)
    requires k < |Places(ops, n)|
    ensures Places(ops, n)[k] < |ops| && |SegmentsOf(ops[Places(ops, n)[k]].template)| == n
  {
    hide SegmentsOf;
    if k < |Places(ops[..|ops| - 1], n)| { PlacesArity(ops[..|ops| - 1], n, k); }
  }

  method MatchOperation(ops: seq<Operation>, verb: Text, path: Text, decode: Text -> Text)
    returns (r: Option<Match>)
    ensures RightMatch(r, ops, Upper(verb), SegmentsOf(path), decode)
  {
    var index := CompileOperations(ops);
    r := MatchCompiled(index, ops, verb, path, decode);
  }

  // ----- paths, written out

  /** A piece of a path: not empty, no slash in it. */
  predicate PieceOk(s: Text) { s != [] && '/' as int !in s }

  /** Pieces with one or more slashes before each, and any number at the end. */
  function PathText(pieces: seq<Text>, gaps: seq<nat>, end: nat): Text
    requires |gaps| == |pieces|
  {
    if pieces == [] then Slashes(end) else Slashes(gaps[0] + 1) + (pieces[0] + PathText(pieces[1..], gaps[1..], end))
  }

  function Slashes(n: nat): Text { seq(n, i => '/' as int) }

  lemma {:induction false} SlashesSkipped(n: nat, rest: Text)
    ensures SegmentsFrom(Slashes(n) + rest, []) == SegmentsFrom(rest, [])
  {
    if n == 0 {
      assert Slashes(n) + rest == rest;
    } else {
      assert (Slashes(n) + rest)[1..] == Slashes(n - 1) + rest;
      SlashesSkipped(n - 1, rest);
    }
  }

  lemma {:induction false} PieceRead(piece: Text, word: Text, rest: Text)
    requires '/' as int !in piece && (rest != [] ==> rest[0] == '/' as int)
    ensures SegmentsFrom(piece + rest, word) == Flush(word + piece) + SegmentsFrom(rest, [])
  {
    if piece == [] {
      assert piece + rest == rest && word + piece == word;
      if rest == [] {
        assert Flush(word) + [] == Flush(word);
      } else {
        assert Flush([]) + SegmentsFrom(rest[1..], []) == SegmentsFrom(rest[1..], []);
      }
    } else {
      assert (piece + rest)[1..] == piece[1..] + rest;
      PieceRead(piece[1..], word + [piece[0]], rest);
      assert (word + [piece[0]]) + piece[1..] == word + piece;
    }
  }

  /** A path's segments are its pieces, however many slashes stand between them. */
  lemma {:induction false} SegmentsExact(pieces: seq<Text>, gaps: seq<nat>, end: nat)
    requires |gaps| == |pieces| && forall k :: 0 <= k < |pieces| ==> PieceOk(pieces[k])
    ensures SegmentsOf(PathText(pieces, gaps, end)) == pieces
  {
    if pieces == [] {
      SlashesSkipped(end, []);
      assert Slashes(end) + [] == Slashes(end);
    } else {
      var rest := PathText(pieces[1..], gaps[1..], end);
      SegmentsExact(pieces[1..], gaps[1..], end);
      SlashesSkipped(gaps[0] + 1, pieces[0] + rest);
      assert PieceOk(pieces[0]) && [] + pieces[0] == pieces[0];
      PieceRead(pieces[0], [], rest);
    }
  }

  /** A parameter is a name of one character or more in curly brackets. */
  lemma ParamsAre(segment: Text)
    ensures forall name: Text :: ParamName(segment) == Some(name)
                                 <==> name != [] && segment == Ascii("{") + name + Ascii("}")
  {
    assert Ascii("{") == [LEFT_CURLY] && Ascii("}") == [RIGHT_CURLY];
    if IsParam(segment) { assert segment == [LEFT_CURLY] + segment[1..|segment| - 1] + [RIGHT_CURLY]; }
    forall name: Text | name != [] && segment == [LEFT_CURLY] + name + [RIGHT_CURLY]
      ensures ParamName(segment) == Some(name)
    {
      assert segment[1..|segment| - 1] == name;
    }
  }

  const LETTERS := "abcdefghijklmnopqrstuvwxyz"
  const CAPITALS := "ABCDEFGHIJKLMNOPQRSTUVWXYZ"

  /** The twenty-six letters become capitals and nothing else changes. */
  lemma UpperIs(s: Text, i: nat)
    requires i < |s|
    ensures |Upper(s)| == |s|
    ensures forall k :: 0 <= k < 26 && s[i] == LETTERS[k] as int ==> Upper(s)[i] == CAPITALS[k] as int
    ensures (forall k :: 0 <= k < 26 ==> s[i] != LETTERS[k] as int) ==> Upper(s)[i] == s[i]
  {
    if 97 <= s[i] <= 122 { assert s[i] == LETTERS[s[i] - 97] as int; }
  }
}
