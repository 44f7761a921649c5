// A scenario's run-wide identity, `(file, scenario name)`, and its order.
module Identity {

  type Key = (string, string)

  /** String order: character by character, a proper prefix first. */
  predicate StringBefore(a: string, b: string) {
    if b == [] then false
    else if a == [] then true
    else if a[0] != b[0] then a[0] < b[0]
    else StringBefore(a[1..], b[1..])
  }

  predicate KeyBefore(a: Key, b: Key) {
    StringBefore(a.0, b.0) || (a.0 == b.0 && StringBefore(a.1, b.1))
  }

  lemma {:induction false} StringTotal(a: string, b: string)
    ensures a == b <==> !StringBefore(a, b) && !StringBefore(b, a)
    ensures !(StringBefore(a, b) && StringBefore(b, a))
  {
    if a != [] && b != [] {
      StringTotal(a[1..], b[1..]);
      assert a == [a[0]] + a[1..] && b == [b[0]] + b[1..];
    }
  }

  lemma {:induction false} StringTransitive(a: string, b: string, c: string)
    requires StringBefore(a, b) && StringBefore(b, c)
    ensures StringBefore(a, c)
  {
    if a != [] && a[0] == b[0] == c[0] {
      StringTransitive(a[1..], b[1..], c[1..]);
    }
  }

  lemma KeyTotal(a: Key, b: Key)
    ensures a == b <==> !KeyBefore(a, b) && !KeyBefore(b, a)
    ensures !(KeyBefore(a, b) && KeyBefore(b, a))
  {
    StringTotal(a.0, b.0);
    StringTotal(a.1, b.1);
    StringTotal(a.0, a.0);
  }

  lemma KeyTransitive(a: Key, b: Key, c: Key)
    requires KeyBefore(a, b) && KeyBefore(b, c)
    ensures KeyBefore(a, c)
  {
    if StringBefore(a.0, b.0) && StringBefore(b.0, c.0) {
      StringTransitive(a.0, b.0, c.0);
    } else if a.0 == b.0 == c.0 {
      StringTransitive(a.1, b.1, c.1);
    }
  }

  /** The first character that differs decides, or the end of the shorter string. */
  ghost predicate DiffersAt(a: string, b: string, n: int) {
    && 0 <= n && n <= |a| && n < |b| && a[..n] == b[..n]
    && (n == |a| || a[n] < b[n])
  }

  lemma {:induction false} StringBeforeIff(a: string, b: string)
    ensures StringBefore(a, b) <==> exists n :: DiffersAt(a, b, n)
  {
    if a == [] || b == [] || a[0] != b[0] {
      if b != [] && (a == [] || a[0] < b[0]) {
        assert DiffersAt(a, b, 0);
      }
      forall n | DiffersAt(a, b, n) ensures n == 0 || (a != [] && b != [] && a[0] == b[0]) {
        FirstShared(a, b, n);
      }
    } else {
      StringBeforeIff(a[1..], b[1..]);
      if n :| DiffersAt(a[1..], b[1..], n) {
        assert a[..n + 1] == [a[0]] + a[1..][..n] && b[..n + 1] == [b[0]] + b[1..][..n];
        assert DiffersAt(a, b, n + 1);
      }
      if n :| DiffersAt(a, b, n) {
        assert a[1..][..n - 1] == a[..n][1..] && b[1..][..n - 1] == b[..n][1..];
        assert DiffersAt(a[1..], b[1..], n - 1);
      }
    }
  }

  lemma FirstShared(a: string, b: string, n: int)
    requires DiffersAt(a, b, n)
    ensures n == 0 || (a != [] && b != [] && a[0] == b[0])
  {
    if n > 0 {
      assert a[..n][0] == b[..n][0];
    }
  }

  /** The file decides; within one file the scenario name does. */
  lemma KeyBeforeIff(a: Key, b: Key)
    ensures KeyBefore(a, b) <==>
              if a.0 != b.0 then exists n :: DiffersAt(a.0, b.0, n) else exists n :: DiffersAt(a.1, b.1, n)
  {
    StringBeforeIff(a.0, b.0);
    StringBeforeIff(a.1, b.1);
    StringTotal(a.0, a.0);
  }
}
