/** Decoded JSON documents, with numbers kept as text, and the number of nodes they hold. */
module JsonTrees {

  datatype Json =
    | Null
    | Bool(b: bool)
    | Number(text: string)
    | Str(s: string)
    | Arr(elements: seq<Json>)
    | Obj(fields: map<string, Json>)

  ghost function Sum(m: map<string, nat>): nat {
    if m == map[] then 0
    else
      var k :| k in m;
      m[k] + Sum(m - {k})
  }

  /** The sum does not depend on the order in which the keys are taken. */
  lemma {:induction false} SumRemove(m: map<string, nat>, k: string)
    requires k in m
    ensures Sum(m) == m[k] + Sum(m - {k})
    decreases |m|
  {
    var j :| j in m && Sum(m) == m[j] + Sum(m - {j});
    if j != k {
      SumRemove(m - {j}, k);
      SumRemove(m - {k}, j);
      assert m - {j} - {k} == m - {k} - {j};
    }
  }

  /** How many values a document holds. */
  ghost function Size(v: Json): (n: nat)
    ensures n > 0
    decreases v, 1
  {
    match v
    case Arr(elements) => 1 + SizeAll(elements)
    case Obj(fields) => 1 + Sum(Sizes(fields, v))
    case _ => 1
  }

  ghost function Sizes(fields: map<string, Json>, whole: Json): map<string, nat>
    requires whole.Obj? && whole.fields == fields
    decreases whole, 0
  {
    map k | k in fields :: Size(fields[k])
  }

  ghost function SizeAll(elements: seq<Json>): nat
    decreases elements, 0
  {
    if elements == [] then 0 else Size(elements[0]) + SizeAll(elements[1..])
  }

  lemma {:induction false} ElementSize(elements: seq<Json>, i: nat)
    requires i < |elements|
    ensures Size(elements[i]) <= SizeAll(elements)
  {
    if i > 0 {
      ElementSize(elements[1..], i - 1);
    }
  }

  lemma FieldSize(fields: map<string, Json>, k: string)
    requires k in fields
    ensures Size(Obj(fields)) == Size(fields[k]) + Size(Obj(fields - {k}))
  {
    var m := map j | j in fields :: Size(fields[j]);
    SumRemove(m, k);
    assert Sizes(fields, Obj(fields)) == m;
    assert Sizes(fields - {k}, Obj(fields - {k})) == m - {k};
  }
}
