/** Object identifiers: arcs, lexicographic order, dotted text and the subtree test. */
module Oids {
  import opened Text

  type Oid = seq<nat>

  /** Lexicographic order on arcs, the order of a MIB (section 4.2.3 of RFC 3416). */
  predicate Less(a: Oid, b: Oid) {
    b != [] && (a == [] || a[0] < b[0] || (a[0] == b[0] && Less(a[1..], b[1..])))
  }

  lemma {:induction false} LessIrreflexive(a: Oid)
    ensures !Less(a, a)
  {
    if a != [] {
      LessIrreflexive(a[1..]);
    }
  }

  lemma {:induction false} LessTransitive(a: Oid, b: Oid, c: Oid)
    requires Less(a, b) && Less(b, c)
    ensures Less(a, c)
  {
    if a != [] && a[0] == b[0] == c[0] {
      LessTransitive(a[1..], b[1..], c[1..]);
    }
  }

  /** Everything below a base comes after it. */
  lemma {:induction false} BelowIsAfter(base: Oid, o: Oid)
    requires base <= o && base != o
    ensures Less(base, o)
  {
    if base != [] {
      assert base[1..] <= o[1..];
      assert base == [base[0]] + base[1..] && o == [o[0]] + o[1..];
      BelowIsAfter(base[1..], o[1..]);
    }
  }

  /** Between a base and an OID below it there is nothing but OIDs below it. */
  lemma {:induction false} SubtreeIsConvex(base: Oid, x: Oid, y: Oid)
    requires Less(base, x) && Less(x, y) && base <= y
    ensures base <= x
  {
    if base != [] {
      assert y[0] == base[0];
      assert base[1..] <= y[1..];
      SubtreeIsConvex(base[1..], x[1..], y[1..]);
      assert base == [base[0]] + base[1..] && x == [x[0]] + x[1..];
    }
  }

  /** "1.3.6.1". */
  function Dotted(o: Oid): string {
    if o == [] then "" else if |o| == 1 then Dec(o[0]) else Dec(o[0]) + "." + Dotted(o[1..])
  }

  /** The subtree test of the walk: oid == base or oid.startswith(base + "."). */
  predicate InSubtreeText(oid: string, base: string) {
    oid == base || base + "." <= oid
  }

  /** oid[len(base) + 1:] if oid != base else "". */
  function SuffixText(oid: string, base: string): string
    requires InSubtreeText(oid, base)
  {
    if oid == base then "" else oid[|base| + 1..]
  }

  /** Every arc followed by a dot. */
  function Dots(o: Oid): string {
    if o == [] then "" else Dec(o[0]) + "." + Dots(o[1..])
  }

  lemma {:induction false} DottedDots(o: Oid)
    requires o != []
    ensures Dotted(o) + "." == Dots(o)
  {
    if |o| == 1 {
      assert Dots(o[1..]) == "";
    } else {
      DottedDots(o[1..]);
      assert Dotted(o) + "." == Dec(o[0]) + "." + (Dotted(o[1..]) + ".");
    }
  }

  predicate NoDot(s: string) {
    forall i :: 0 <= i < |s| ==> s[i] != '.'
  }

  /** Two dotted texts agree on a prefix exactly when their first tokens are equal and the rests agree. */
  lemma HeadToken(s: string, t: string, x: string, y: string)
    requires NoDot(s) && NoDot(t)
    ensures s + "." + x <= t + "." + y <==> s == t && x <= y
  {
    var l, r := s + "." + x, t + "." + y;
    if l <= r {
      assert l[|s|] == '.' == r[|s|];
      assert forall i :: 0 <= i < |s| ==> r[i] == s[i];
      assert r[|t|] == '.';
      assert |s| == |t|;
      assert s == l[..|s|] && t == r[..|t|];
      assert l[..|s|] == r[..|s|];
      assert x == l[|s| + 1..] && y == r[|s| + 1..];
    }
    assert s == t && x <= y ==> r == l + y[|x|..];
  }

  lemma {:induction false} DotsPrefix(b: Oid, o: Oid)
    ensures Dots(b) <= Dots(o) <==> b <= o
  {
    if b != [] && o != [] {
      HeadToken(Dec(b[0]), Dec(o[0]), Dots(b[1..]), Dots(o[1..]));
      DotsPrefix(b[1..], o[1..]);
      assert b == [b[0]] + b[1..] && o == [o[0]] + o[1..];
      if Dec(b[0]) == Dec(o[0]) {
        DecInjective(b[0], o[0]);
      }
    }
  }

  lemma DotsCons(arc: nat, o: Oid)
    ensures Dots([arc] + o) == Dec(arc) + "." + Dots(o)
  {
    assert ([arc] + o)[1..] == o;
  }

  lemma {:induction false} DotsConcat(a: Oid, b: Oid)
    ensures Dots(a + b) == Dots(a) + Dots(b)
  {
    if a == [] {
      assert a + b == b;
    } else {
      var h, rest := Dec(a[0]) + ".", a[1..];
      assert a + b == [a[0]] + (rest + b);
      DotsConcat(rest, b);
      DotsCons(a[0], rest + b);
      Associative(h, Dots(rest), Dots(b));
    }
  }

  lemma Associative(x: string, y: string, z: string)
    ensures x + (y + z) == (x + y) + z
  {
  }

  lemma {:induction false} DottedNonEmpty(o: Oid)
    requires o != []
    ensures Dotted(o) != "" && IsDigit(Dotted(o)[0])
  {
    assert Dotted(o)[0] == Dec(o[0])[0];
  }

  lemma EmptyHasNoText(o: Oid)
    ensures Dotted(o) == "" <==> o == []
  {
    if o != [] {
      DottedNonEmpty(o);
    }
  }

  /**
   * The string test means exactly what it should: base's arcs are a leading part of the OID's arcs.
   * (An empty base has no arcs to test, and only matches the empty OID.)
   */
  lemma SubtreeTest(o: Oid, base: Oid)
    ensures InSubtreeText(Dotted(o), Dotted(base)) <==> if base == [] then o == [] else base <= o
  {
    EmptyHasNoText(o);
    if base == [] {
      if o != [] {
        DottedNonEmpty(o);
      }
    } else if o == [] {
      EmptyHasNoText(base);
    } else {
      DottedDots(o);
      DottedDots(base);
      DotsPrefix(base, o);
      var d, b := Dotted(o), Dotted(base);
      assert Dots(o) == d + "." && Dots(base) == b + ".";
      if b + "." <= d + "." && d != b {
        assert d == (d + ".")[..|d|] && b == (b + ".")[..|b|];
        assert |b| < |d|;
        assert b + "." <= d;
      }
    }
  }

  /** The text after the base and its dot is the dotted form of the remaining arcs. */
  lemma SuffixOfArcs(o: Oid, base: Oid)
    requires base != [] && base <= o
    ensures InSubtreeText(Dotted(o), Dotted(base))
    ensures SuffixText(Dotted(o), Dotted(base)) == Dotted(o[|base|..])
  {
    SubtreeTest(o, base);
    if o != base {
      var rest := o[|base|..];
      assert o == base + rest;
      DotsConcat(base, rest);
      DottedDots(o);
      DottedDots(base);
      DottedDots(rest);
      DropBase(Dotted(o), Dotted(base), Dotted(rest));
    }
  }

  lemma DropBase(d: string, b: string, r: string)
    requires d + "." == b + "." + (r + ".")
    ensures d == b + "." + r
    ensures |d| > |b| && d[|b| + 1..] == r
  {
    assert |d| + 1 == |d + "."| == |b| + 1 + (|r| + 1);
    assert d == (d + ".")[..|d|] == (b + "." + (r + "."))[..|d|] == b + "." + r;
  }

  /** Splitting dotted text on dots gives back the decimal form of each arc. */
  lemma {:induction false} SplitDotted(o: Oid)
    requires o != []
    ensures Split(Dotted(o)) == seq(|o|, i requires 0 <= i < |o| => Dec(o[i]))
  {
    var d := Dotted(o);
    if |o| == 1 {
      assert FirstDot(d) == |d|;
    } else {
      var h := Dec(o[0]);
      assert d == h + "." + Dotted(o[1..]);
      assert FirstDot(d) == |h| by {
        assert d[|h|] == '.';
        assert forall j :: 0 <= j < |h| ==> d[j] == h[j];
      }
      assert d[..|h|] == h && d[|h| + 1..] == Dotted(o[1..]);
      SplitDotted(o[1..]);
    }
  }
}
