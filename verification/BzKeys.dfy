/** Keys and values of the BzTree: C strings, so without NUL bytes, ordered as strcmp orders them. */
module BzKeys {
  type Byte = b: int | 0 <= b < 256

  type Str = seq<Byte>

  predicate Clean(s: Str) { forall i | 0 <= i < |s| :: s[i] != 0 }

  /** strcmp(a, b) < 0; also the order of std::string. */
  predicate Less(a: Str, b: Str) {
    if b == [] then false
    else if a == [] then true
    else if a[0] != b[0] then a[0] < b[0]
    else Less(a[1..], b[1..])
  }

  lemma {:induction false} LessIrreflexive(a: Str)
    ensures !Less(a, a)
  {
    if a != [] { LessIrreflexive(a[1..]); }
  }

  lemma {:induction false} LessTransitive(a: Str, b: Str, c: Str)
    requires Less(a, b) && Less(b, c)
    ensures Less(a, c)
  {
    if a != [] && a[0] == b[0] && b[0] == c[0] { LessTransitive(a[1..], b[1..], c[1..]); }
  }

  lemma {:induction false} LessTotal(a: Str, b: Str)
    ensures Less(a, b) || a == b || Less(b, a)
  {
    if a != [] && b != [] && a[0] == b[0] {
      LessTotal(a[1..], b[1..]);
      assert a[1..] == b[1..] ==> a == [a[0]] + a[1..] == b;
    }
  }

  /** Less is a strict total order. */
  lemma LessOrders()
    ensures forall a :: !Less(a, a)
    ensures forall a, b, c :: Less(a, b) && Less(b, c) ==> Less(a, c)
    ensures forall a, b :: Less(a, b) || a == b || Less(b, a)
  {
    forall a ensures !Less(a, a) { LessIrreflexive(a); }
    forall a, b, c | Less(a, b) && Less(b, c) ensures Less(a, c) { LessTransitive(a, b, c); }
    forall a, b ensures Less(a, b) || a == b || Less(b, a) { LessTotal(a, b); }
  }

  /** Keys compare the same with their terminating NUL, which is how node contents are sorted. */
  lemma {:induction false} LessTerminated(a: Str, b: Str)
    requires Clean(a) && Clean(b)
    ensures Less(a + [0], b + [0]) <==> Less(a, b)
  {
    if a != [] && b != [] {
      assert (a + [0])[1..] == a[1..] + [0];
      assert (b + [0])[1..] == b[1..] + [0];
      LessTerminated(a[1..], b[1..]);
    }
  }
}
