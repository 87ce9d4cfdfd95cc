/**
  xbinding/int_array.go: an int-list binding kept as fyne's untyped list. Each
  element is an interface value; Set stores every int as one, and Get reads
  every element back with the type assertion `v.(int)`.
*/
module XBinding {

  /** A dynamically typed Go value as the untyped list holds it: an int, or a value of another type. */
  datatype Untyped = IntValue(n: int) | OtherValue

  class IntArray {
    /** The untyped list's contents. */
    var items: seq<Untyped>

    /** Every element holds an int, so Get's type assertion cannot panic. */
    ghost predicate Valid()
      reads this
    {
      forall i :: 0 <= i < |items| ==> items[i].IntValue?
    }

    /** The int sequence the binding stands for. */
    ghost function Contents(): seq<int>
      reads this
      requires Valid()
    {
      seq(|items|, i requires 0 <= i < |items| && items[i].IntValue? reads this => items[i].n)
    }

    /** NewIntArray: an empty list. */
    constructor ()
      ensures Valid() && items == []
    {
      items := [];
    }

    /** Set: copy `value` element by element into a fresh interface array and store it. */
    method Set(value: seq<int>)
      modifies this
      ensures Valid()
      ensures |items| == |value|
      ensures forall i :: 0 <= i < |value| ==> items[i] == IntValue(value[i])
      ensures Contents() == value
    {
      var interfaces := new Untyped[|value|];
      for i := 0 to |value|
        invariant forall j :: 0 <= j < i ==> interfaces[j] == IntValue(value[j])
      {
        interfaces[i] := IntValue(value[i]);
      }
      items := interfaces[..];
    }

    /** Get: copy each element's int into a fresh int array. */
    method Get() returns (r: seq<int>)
      requires Valid()
      ensures |r| == |items|
      ensures forall i :: 0 <= i < |r| ==> items[i] == IntValue(r[i])
      ensures r == Contents()
    {
      var values := items;
      var ret := new int[|values|];
      for i := 0 to |values|
        invariant forall j :: 0 <= j < i ==> values[j] == IntValue(ret[j])
      {
        ret[i] := values[i].n;
      }
      r := ret[..];
    }
  }

  /** Get after Set(v) returns v, element by element. */
  method SetThenGet(v: seq<int>) returns (r: seq<int>)
    ensures r == v
  {
    var a := new IntArray();
    a.Set(v);
    r := a.Get();
  }
}
