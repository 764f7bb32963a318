/**
  JSON values as Python's `json.loads` hands them to the extractor: an object is a
  dict whose keys are distinct and whose order is the document order.
 */
module Json {
  import opened Wrappers

  datatype Json =
    | JNull
    | JBool(b: bool)
    | JInt(i: int)
    | JReal(r: real)
    | JStr(s: string)
    | JArr(elems: seq<Json>)
    | JObj(members: seq<Member>)

  /** One key/value pair of an object, in document order. */
  datatype Member = Member(key: string, value: Json)

  /** `x.get(k)`: the value bound to `k`, if any. */
  function Get(ms: seq<Member>, k: string): Option<Json>
  {
    if ms == [] then None
    else if ms[0].key == k then Some(ms[0].value)
    else Get(ms[1..], k)
  }

  /** `x.get(k)` finds nothing exactly when no member has key `k`, and otherwise the value of a member with key `k`. */
  lemma {:induction false} GetSpec(ms: seq<Member>, k: string)
    ensures Get(ms, k).None? <==> forall i :: 0 <= i < |ms| ==> ms[i].key != k
    ensures Get(ms, k).Some? ==> exists i :: 0 <= i < |ms| && ms[i] == Member(k, Get(ms, k).value)
  {
    if ms != [] && ms[0].key != k {
      GetSpec(ms[1..], k);
      assert forall i :: 1 <= i < |ms| ==> ms[i] == ms[1..][i - 1];
      if Get(ms, k).Some? {
        var i :| 0 <= i < |ms[1..]| && ms[1..][i] == Member(k, Get(ms, k).value);
        assert ms[i + 1] == Member(k, Get(ms, k).value);
      }
    }
  }

  /** `isinstance(x.get(k), str)`, giving the string when it holds. */
  function StrAt(ms: seq<Member>, k: string): Option<string>
  {
    match Get(ms, k)
    case Some(JStr(s)) => Some(s)
    case _ => None
  }

  /**
    The ordered-candidate probe `for k in keys: if isinstance(x.get(k), str): v = x[k]; break`:
    the value of the first candidate key that holds a string.
   */
  function FirstStr(ms: seq<Member>, keys: seq<string>): Option<string>
  {
    if keys == [] then None
    else if StrAt(ms, keys[0]).Some? then StrAt(ms, keys[0])
    else FirstStr(ms, keys[1..])
  }

  /**
    The probe finds nothing exactly when no candidate holds a string; otherwise it gives
    the string of a candidate that does, with every earlier candidate holding none.
   */
  lemma {:induction false} FirstStrSpec(ms: seq<Member>, keys: seq<string>)
    ensures FirstStr(ms, keys).None? <==> forall i :: 0 <= i < |keys| ==> StrAt(ms, keys[i]).None?
    ensures FirstStr(ms, keys).Some? ==>
              exists i :: 0 <= i < |keys| && StrAt(ms, keys[i]) == FirstStr(ms, keys) &&
                          forall j :: 0 <= j < i ==> StrAt(ms, keys[j]).None?
  {
    if keys != [] && StrAt(ms, keys[0]).None? {
      FirstStrSpec(ms, keys[1..]);
      assert forall i :: 1 <= i < |keys| ==> keys[i] == keys[1..][i - 1];
      if FirstStr(ms, keys).Some? {
        var i :| 0 <= i < |keys[1..]| && StrAt(ms, keys[1..][i]) == FirstStr(ms, keys) &&
                 forall j :: 0 <= j < i ==> StrAt(ms, keys[1..][j]).None?;
        assert StrAt(ms, keys[i + 1]) == FirstStr(ms, keys);
        forall j | 0 <= j < i + 1 ensures StrAt(ms, keys[j]).None? {
          if j > 0 {
            assert keys[j] == keys[1..][j - 1];
          }
        }
      }
    } else if keys != [] {
      assert StrAt(ms, keys[0]) == FirstStr(ms, keys);
    }
  }

  /** The probe gives the string of the first candidate that holds one. */
  lemma {:induction false} FirstStrAt(ms: seq<Member>, keys: seq<string>, i: nat)
    requires i < |keys| && StrAt(ms, keys[i]).Some?
    requires forall j :: 0 <= j < i ==> StrAt(ms, keys[j]).None?
    ensures FirstStr(ms, keys) == StrAt(ms, keys[i])
    decreases i
  {
    if i > 0 {
      assert StrAt(ms, keys[0]).None?;
      assert forall j :: 0 <= j < i - 1 ==> keys[1..][j] == keys[j + 1];
      FirstStrAt(ms, keys[1..], i - 1);
    }
  }

  /** `x.get(k)` is the value of the first member with key `k`. */
  lemma {:induction false} GetAt(ms: seq<Member>, k: string, i: nat)
    requires i < |ms| && ms[i].key == k
    requires forall j :: 0 <= j < i ==> ms[j].key != k
    ensures Get(ms, k) == Some(ms[i].value)
    decreases i
  {
    if i > 0 {
      assert ms[0].key != k;
      assert forall j :: 0 <= j < i - 1 ==> ms[1..][j] == ms[j + 1];
      GetAt(ms[1..], k, i - 1);
    }
  }

  /** A key that no member carries holds no string. */
  lemma AbsentKey(ms: seq<Member>, k: string)
    requires forall i :: 0 <= i < |ms| ==> ms[i].key != k
    ensures StrAt(ms, k).None? && Get(ms, k).None?
  {
    GetSpec(ms, k);
  }

  /** The probe loop itself, with its early exit. */
  method ProbeFirstStr(ms: seq<Member>, keys: seq<string>) returns (r: Option<string>)
    ensures r == FirstStr(ms, keys)
  {
    r := None;
    var i := 0;
    while i < |keys|
      invariant 0 <= i <= |keys|
      invariant FirstStr(ms, keys) == FirstStr(ms, keys[i..])
    {
      assert keys[i..][1..] == keys[i + 1..];
      var v := StrAt(ms, keys[i]);
      if v.Some? {
        r := v;
        break;
      }
      i := i + 1;
    }
  }

  /** Python truthiness, as `if data:` applies it to the parsed document. */
  predicate Truthy(j: Json)
  {
    match j
    case JNull => false
    case JBool(b) => b
    case JInt(i) => i != 0
    case JReal(r) => r != 0.0
    case JStr(s) => s != ""
    case JArr(xs) => xs != []
    case JObj(ms) => ms != []
  }
}
