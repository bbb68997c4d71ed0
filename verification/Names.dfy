/** Domain names in canonical form, and the canonical order of section 6.1 of RFC 4034.

    A name is the sequence of its labels read from the root, folded to lower case, so that
    "is a subdomain of" is Dafny's prefix relation `<=` on sequences and the canonical order
    is the lexicographic order on labels, which are themselves ordered as octet strings. */
module Names {
  type Octet = n: nat | n < 256
  type Octets = seq<Octet>
  type Name = seq<Octets>

  const STAR: Octets := [42]

  /** Octet strings order lexicographically, a proper prefix first. */
  predicate OctetsBefore(a: Octets, b: Octets) {
    |b| > 0 && (|a| == 0 || a[0] < b[0] || (a[0] == b[0] && OctetsBefore(a[1..], b[1..])))
  }

  /** Canonical name order: most significant label first, an ancestor before its descendants. */
  predicate Before(a: Name, b: Name) {
    |b| > 0 && (|a| == 0 || OctetsBefore(a[0], b[0]) || (a[0] == b[0] && Before(a[1..], b[1..])))
  }

  predicate AtOrBelow(name: Name, top: Name) { top <= name }

  predicate StrictlyBelow(name: Name, top: Name) { top < name }

  function Parent(name: Name): Name
    requires |name| > 0
  {
    name[..|name| - 1]
  }

  function Wildcard(encloser: Name): Name { encloser + [STAR] }

  // ---------- the two orders are strict total orders ----------

  lemma {:induction false} OctetsTotal(a: Octets, b: Octets)
    ensures OctetsBefore(a, b) || a == b || OctetsBefore(b, a)
    ensures !(OctetsBefore(a, b) && OctetsBefore(b, a))
    ensures !OctetsBefore(a, a)
  {
    if |a| > 0 { OctetsTotal(a[1..], a[1..]); }
    if |a| > 0 && |b| > 0 && a[0] == b[0] {
      OctetsTotal(a[1..], b[1..]);
      assert a == [a[0]] + a[1..] && b == [b[0]] + b[1..];
    }
  }

  lemma {:induction false} OctetsTransitive(a: Octets, b: Octets, c: Octets)
    requires OctetsBefore(a, b) && OctetsBefore(b, c)
    ensures OctetsBefore(a, c)
  {
    if |a| > 0 && a[0] == b[0] == c[0] { OctetsTransitive(a[1..], b[1..], c[1..]); }
  }

  lemma {:induction false} Total(a: Name, b: Name)
    ensures Before(a, b) || a == b || Before(b, a)
    ensures !(Before(a, b) && Before(b, a))
    ensures !Before(a, a)
  {
    if |a| > 0 { Total(a[1..], a[1..]); OctetsTotal(a[0], a[0]); }
    if |a| > 0 && |b| > 0 {
      OctetsTotal(a[0], b[0]);
      if a[0] == b[0] {
        Total(a[1..], b[1..]);
        assert a == [a[0]] + a[1..] && b == [b[0]] + b[1..];
      }
    }
  }

  lemma {:induction false} Transitive(a: Name, b: Name, c: Name)
    requires Before(a, b) && Before(b, c)
    ensures Before(a, c)
  {
    if |a| > 0 {
      if OctetsBefore(a[0], b[0]) && OctetsBefore(b[0], c[0]) {
        OctetsTransitive(a[0], b[0], c[0]);
      } else if a[0] == b[0] == c[0] {
        Transitive(a[1..], b[1..], c[1..]);
      }
    }
  }

  // ---------- subtrees are contiguous ----------

  lemma {:induction false} AncestorFirst(top: Name, name: Name)
    requires StrictlyBelow(name, top)
    ensures Before(top, name)
  {
    if |top| > 0 { AncestorFirst(top[1..], name[1..]); }
  }

  /** A name outside a subtree compares with every member of it as it does with its top:
      a subtree occupies one contiguous interval of the canonical order. */
  lemma {:induction false} Outside(top: Name, inside: Name, other: Name)
    requires AtOrBelow(inside, top) && !AtOrBelow(other, top)
    ensures Before(other, inside) <==> Before(other, top)
    ensures Before(inside, other) <==> Before(top, other)
  {
    if |other| > 0 && top[0] == other[0] {
      assert top == [top[0]] + top[1..] && other == [other[0]] + other[1..];
      assert !(top[1..] <= other[1..]);
      Outside(top[1..], inside[1..], other[1..]);
      OctetsTotal(other[0], other[0]);
    } else if |other| > 0 {
      assert inside[0] == top[0];
    }
  }

  /** The same fact as betweenness: whatever lies between two members of a subtree is in it. */
  lemma Contiguous(top: Name, low: Name, middle: Name, high: Name)
    requires AtOrBelow(low, top) && AtOrBelow(high, top)
    requires Before(low, middle) && Before(middle, high)
    ensures AtOrBelow(middle, top)
  {
    if !AtOrBelow(middle, top) {
      Outside(top, low, middle);
      Outside(top, high, middle);
      Total(top, middle);
    }
  }
}
