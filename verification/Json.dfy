/** JSON values as the resolver and the interpreter see them after decoding. */
module Json {

  datatype Json =
    | Null
    | Bool(b: bool)
    | Number(n: real)
    | String(s: string)
    | Array(items: seq<Json>)
    | Object(fields: map<string, Json>)

  /** An object is a reference when its $ref member is a string. */
  predicate IsReference(fields: map<string, Json>) {
    "$ref" in fields && fields["$ref"].String?
  }

  /** Every reference string anywhere inside a value. */
  ghost function Refs(v: Json): set<string> {
    match v
    case Array(items) => set i, r | 0 <= i < |items| && r in Refs(items[i]) :: r
    case Object(fields) =>
      (if IsReference(fields) then {fields["$ref"].s} else {})
      + (set k, r | k in fields && r in Refs(fields[k]) :: r)
    case _ => {}
  }

  ghost function MaxOf(s: set<nat>): (m: nat)
    ensures forall x :: x in s ==> x <= m
    ensures m == 0 || m in s
  {
    if s == {} then 0 else
      var x :| x in s;
      var m := MaxOf(s - {x});
      assert s == (s - {x}) + {x};
      if x > m then x else m
  }

  /** How deeply references with siblings nest inside one another. */
  ghost function RefDepth(v: Json): (depth: nat)
    ensures v.Object? ==> forall k :: k in v.fields ==>
              RefDepth(v.fields[k]) + (if IsReference(v.fields) then 1 else 0) <= depth
    ensures v.Array? ==> forall i :: 0 <= i < |v.items| ==> RefDepth(v.items[i]) <= depth
  {
    match v
    case Array(items) =>
      var depths := set i | 0 <= i < |items| :: RefDepth(items[i]);
      assert forall i :: 0 <= i < |items| ==> RefDepth(items[i]) in depths;
      MaxOf(depths)
    case Object(fields) =>
      var depths := set k | k in fields :: RefDepth(fields[k]);
      assert forall k :: k in fields ==> RefDepth(fields[k]) in depths;
      (if IsReference(fields) then 1 else 0) + MaxOf(depths)
    case _ => 0
  }

  lemma {:induction false} MemberRefs(fields: map<string, Json>, k: string)
    requires k in fields
    ensures Refs(fields[k]) <= Refs(Object(fields))
    ensures RefDepth(fields[k]) <= RefDepth(Object(fields))
    ensures IsReference(fields) ==> RefDepth(fields[k]) < RefDepth(Object(fields))
  {}

  /** Every $ref member, wherever it stands, is a string. */
  ghost predicate StringRefs(v: Json) {
    match v
    case Array(items) => forall i :: 0 <= i < |items| ==> StringRefs(items[i])
    case Object(fields) =>
      ("$ref" in fields ==> fields["$ref"].String?) && forall k :: k in fields ==> StringRefs(fields[k])
    case _ => true
  }

  /** No object, however deep, has a $ref member. */
  ghost predicate RefFree(v: Json) {
    match v
    case Array(items) => forall i :: 0 <= i < |items| ==> RefFree(items[i])
    case Object(fields) => "$ref" !in fields && forall k :: k in fields ==> RefFree(fields[k])
    case _ => true
  }

  lemma {:induction false} RefFreeMeansNoRefs(v: Json)
    requires RefFree(v)
    ensures Refs(v) == {} && RefDepth(v) == 0 && StringRefs(v)
  {
    match v
    case Array(items) =>
      forall i | 0 <= i < |items| ensures Refs(items[i]) == {} && RefDepth(items[i]) == 0 && StringRefs(items[i]) {
        RefFreeMeansNoRefs(items[i]);
      }
    case Object(fields) =>
      forall k | k in fields ensures Refs(fields[k]) == {} && RefDepth(fields[k]) == 0 && StringRefs(fields[k]) {
        RefFreeMeansNoRefs(fields[k]);
      }
    case _ =>
  }
}
