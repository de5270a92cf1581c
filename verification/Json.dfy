/**
 JSON values. A number keeps the characters that denote it, and an object keeps its members in
 insertion order, because printing and reading both depend on that order.
 */
module Json {
  import opened Text

  datatype Json =
    | Null
    | Bool(b: bool)
    | Num(lexeme: Text)
    | Str(text: Text)
    | Arr(items: seq<Json>)
    | Obj(members: seq<Member>)

  datatype Member = Member(key: Text, value: Json)

  predicate HasKey(members: seq<Member>, key: Text) {
    exists i :: 0 <= i < |members| && members[i].key == key
  }

  predicate DistinctKeys(members: seq<Member>) {
    forall i, j :: 0 <= i < j < |members| ==> members[i].key != members[j].key
  }

  /** Assignment to an object's property: overwrite in place, or append. */
  function Put(members: seq<Member>, key: Text, value: Json): (r: seq<Member>)
    ensures !HasKey(members, key) ==> r == members + [Member(key, value)]
  {
    if members == [] then [Member(key, value)]
    else if members[0].key == key then
      assert HasKey(members, key);
      [Member(key, value)] + members[1..]
    else
      var rest := Put(members[1..], key, value);
      assert HasKey(members[1..], key) ==> HasKey(members, key) by {
        if j :| 0 <= j < |members[1..]| && members[1..][j].key == key {
          assert members[j + 1].key == key;
        }
      }
      [members[0]] + rest
  }

  /** A pointer into the document that holds it, as references are written: it starts with "#/". */
  predicate Local(pointer: Text) { |pointer| >= 2 && pointer[0] == 35 && pointer[1] == 47 }
}
