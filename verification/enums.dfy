/** The enum tables of the `constants` message (`serializeEnum`). */
module Enums {
  import opened Js

  /** `typeof v === 'number' || typeof v === 'string'`. */
  predicate IsEnumValue(v: Value) {
    v.Num? || v.Str?
  }

  /** The table `serializeEnum` produces: the entries of `obj` whose value is
      a number or a string, in their original order. */
  function EnumTable(obj: Entries<Value>): (out: Entries<Value>)
    ensures forall e :: e in out <==> e in obj && IsEnumValue(e.1)
    ensures |out| <= |obj|
  {
    if obj == [] then []
    else
      var init, last := obj[..|obj| - 1], obj[|obj| - 1];
      assert obj == init + [last];
      var out := EnumTable(init);
      if IsEnumValue(last.1) then out + [last] else out
  }

  /** Kept entries keep their original order: the table of a concatenation
      is the concatenation of the tables. */
  lemma {:induction false} EnumTableConcat(a: Entries<Value>, b: Entries<Value>)
    ensures EnumTable(a + b) == EnumTable(a) + EnumTable(b)
    decreases |b|
  {
    if b == [] {
      assert a + b == a;
    } else {
      var init, last := b[..|b| - 1], b[|b| - 1];
      assert (a + b)[..|a + b| - 1] == a + init;
      assert (a + b)[|a + b| - 1] == last;
      EnumTableConcat(a, init);
    }
  }

  /** A table built from an object is itself a valid object. */
  lemma {:induction false} EnumTableDistinctKeys(obj: Entries<Value>)
    requires DistinctKeys(obj)
    ensures DistinctKeys(EnumTable(obj))
  {
    if obj != [] {
      var init, last := obj[..|obj| - 1], obj[|obj| - 1];
      EnumTableDistinctKeys(init);
      var out := EnumTable(init);
      forall i | 0 <= i < |out|
        ensures out[i].0 != last.0
      {
        assert out[i] in init;
        var j :| 0 <= j < |init| && init[j] == out[i];
        assert obj[j] == out[i];
      }
    }
  }

  /** `serializeEnum(obj)`: fills `out` key by key. */
  method SerializeEnum(obj: Entries<Value>) returns (out: Entries<Value>)
    ensures out == EnumTable(obj)
  {
    out := [];
    for i := 0 to |obj|
      invariant out == EnumTable(obj[..i])
    {
      var (k, v) := obj[i];
      if IsEnumValue(v) {
        out := out + [(k, v)];
      }
      assert obj[..i + 1][..i] == obj[..i];
    }
    assert obj[..|obj|] == obj;
  }
}
