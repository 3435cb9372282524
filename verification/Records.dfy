/**
 Byte records built field by field and read back with a moving cursor.
 */
module Records {
  import opened Machine

  /** The fields appended one after another. */
  function Cat(parts: seq<Bytes>): Bytes {
    if parts == [] then [] else Cat(parts[..|parts| - 1]) + parts[|parts| - 1]
  }

  /** Where field i starts. */
  function Offset(parts: seq<Bytes>, i: nat): (o: nat)
    requires i <= |parts|
  {
    if i == 0 then 0 else Offset(parts, i - 1) + |parts[i - 1]|
  }

  lemma {:induction false} OffsetOfPrefix(parts: seq<Bytes>, n: nat, i: nat)
    requires i <= n <= |parts|
    ensures Offset(parts[..n], i) == Offset(parts, i)
  {
    if i > 0 {
      OffsetOfPrefix(parts, n, i - 1);
    }
  }

  lemma {:induction false} CatLength(parts: seq<Bytes>)
    ensures |Cat(parts)| == Offset(parts, |parts|)
  {
    if parts != [] {
      CatLength(parts[..|parts| - 1]);
      OffsetOfPrefix(parts, |parts| - 1, |parts| - 1);
    }
  }

  /** The slice at a field's offset is the field. */
  lemma {:induction false} CatAt(parts: seq<Bytes>, i: nat)
    requires i < |parts|
    ensures Offset(parts, i) + |parts[i]| <= |Cat(parts)|
    ensures Cat(parts)[Offset(parts, i)..Offset(parts, i) + |parts[i]|] == parts[i]
  {
    var n := |parts| - 1;
    var init := parts[..n];
    CatLength(init);
    OffsetOfPrefix(parts, n, n);
    if i < n {
      CatAt(init, i);
      OffsetOfPrefix(parts, n, i);
      var o := Offset(parts, i);
      assert Cat(parts)[o..o + |parts[i]|] == Cat(init)[o..o + |parts[i]|];
    }
  }
}
