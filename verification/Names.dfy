/** Domain names as label sequences, and the canonical order of section 6.1 of RFC 4034. */
module Names {

  /** A label is its lower-cased octets: every stored name has been through `normalize_name`. */
  type Label = string

  /** A name is its labels, root first: `www.example.com.` is ["com", "example", "www"]. */
  type Name = seq<Label>

  datatype Order = Less | Equal | Greater

  function CompareChars(a: char, b: char): Order {
    if a < b then Less else if b < a then Greater else Equal
  }

  /** Element by element; the first difference decides, then the shorter sequence comes first. */
  function Lex<T>(cmp: (T, T) -> Order, a: seq<T>, b: seq<T>): Order {
    if a == [] then if b == [] then Equal else Less
    else if b == [] then Greater
    else if cmp(a[0], b[0]) != Equal then cmp(a[0], b[0])
    else Lex(cmp, a[1..], b[1..])
  }

  function CompareLabels(a: Label, b: Label): Order {
    Lex(CompareChars, a, b)
  }

  /** Names compare as label sequences read right to left, which is root first here. */
  function CompareNames(a: Name, b: Name): Order {
    Lex(CompareLabels, a, b)
  }

  predicate Before(a: Name, b: Name) {
    CompareNames(a, b) == Less
  }

  /** `n` sits at or beneath `zone`: the zone's labels are where the name's labels start. */
  predicate InZone(n: Name, zone: Name) {
    zone <= n
  }

  function Parent(n: Name): Name
    requires n != []
  {
    n[..|n| - 1]
  }

  /** `*.<n>`. */
  function WildcardOf(n: Name): Name {
    n + ["*"]
  }

  // ---- the order is total ----

  ghost predicate TotalOrder<T(!new)>(cmp: (T, T) -> Order) {
    && (forall x, y :: cmp(x, y) == Equal <==> x == y)
    && (forall x, y :: cmp(x, y) == Less <==> cmp(y, x) == Greater)
    && (forall x, y, z :: cmp(x, y) == Less && cmp(y, z) == Less ==> cmp(x, z) == Less)
  }

  lemma {:induction false} LexEqual<T(!new)>(cmp: (T, T) -> Order, a: seq<T>, b: seq<T>)
    requires TotalOrder(cmp)
    ensures Lex(cmp, a, b) == Equal <==> a == b
  {
    if a != [] && b != [] {
      LexEqual(cmp, a[1..], b[1..]);
      assert a == [a[0]] + a[1..] && b == [b[0]] + b[1..];
    }
  }

  lemma {:induction false} LexFlip<T(!new)>(cmp: (T, T) -> Order, a: seq<T>, b: seq<T>)
    requires TotalOrder(cmp)
    ensures Lex(cmp, a, b) == Less <==> Lex(cmp, b, a) == Greater
  {
    if a != [] && b != [] {
      LexFlip(cmp, a[1..], b[1..]);
    }
  }

  lemma {:induction false} LexTransitive<T(!new)>(cmp: (T, T) -> Order, a: seq<T>, b: seq<T>, c: seq<T>)
    requires TotalOrder(cmp)
    requires Lex(cmp, a, b) == Less && Lex(cmp, b, c) == Less
    ensures Lex(cmp, a, c) == Less
  {
    if a != [] && b != [] && c != [] && cmp(a[0], b[0]) == Equal && cmp(b[0], c[0]) == Equal {
      LexTransitive(cmp, a[1..], b[1..], c[1..]);
    }
  }

  lemma LexIsTotalOrder<T(!new)>(cmp: (T, T) -> Order, lex: (seq<T>, seq<T>) -> Order)
    requires TotalOrder(cmp)
    requires forall a, b :: lex(a, b) == Lex(cmp, a, b)
    ensures TotalOrder(lex)
  {
    forall a, b ensures lex(a, b) == Equal <==> a == b { LexEqual(cmp, a, b); }
    forall a, b ensures lex(a, b) == Less <==> lex(b, a) == Greater { LexFlip(cmp, a, b); }
    forall a, b, c | lex(a, b) == Less && lex(b, c) == Less ensures lex(a, c) == Less {
      LexTransitive(cmp, a, b, c);
    }
  }

  /** Canonical order is a total order on names. */
  lemma CanonicalOrderIsTotal()
    ensures TotalOrder(CompareLabels)
    ensures TotalOrder(CompareNames)
  {
    LexIsTotalOrder(CompareChars, CompareLabels);
    LexIsTotalOrder(CompareLabels, CompareNames);
  }

  lemma Trichotomy(a: Name, b: Name)
    ensures a == b || Before(a, b) || Before(b, a)
    ensures !(a == b && Before(a, b)) && !(Before(a, b) && Before(b, a))
  {
    CanonicalOrderIsTotal();
    assert CompareNames(a, b) == Less <==> CompareNames(b, a) == Greater;
    assert CompareNames(b, a) == Less <==> CompareNames(a, b) == Greater;
  }

  lemma BeforeTransitive(a: Name, b: Name, c: Name)
    requires Before(a, b) && Before(b, c)
    ensures Before(a, c)
  {
    CanonicalOrderIsTotal();
  }

  // ---- which of two names comes first ----

  /** Two labels compared as octets: a label that the other continues, or the lower octet where they first differ. */
  ghost predicate LabelFirst(x: Label, y: Label) {
    x < y || exists j :: 0 <= j < |x| && j < |y| && x[..j] == y[..j] && x[j] < y[j]
  }

  lemma {:induction false} LexIff<T(!new)>(cmp: (T, T) -> Order, a: seq<T>, b: seq<T>)
    requires TotalOrder(cmp)
    ensures Lex(cmp, a, b) == Less <==>
      a < b || exists i :: 0 <= i < |a| && i < |b| && a[..i] == b[..i] && cmp(a[i], b[i]) == Less
  {
    if a == [] {
      assert b != [] ==> a < b;
    } else if b != [] {
      if cmp(a[0], b[0]) == Equal {
        LexIff(cmp, a[1..], b[1..]);
        HeadShared(a, b);
        if Lex(cmp, a[1..], b[1..]) == Less && !(a < b) {
          var i :| 0 <= i < |a[1..]| && i < |b[1..]| && a[1..][..i] == b[1..][..i] && cmp(a[1..][i], b[1..][i]) == Less;
          assert a[..i + 1] == [a[0]] + a[1..][..i] && b[..i + 1] == [b[0]] + b[1..][..i];
          assert cmp(a[i + 1], b[i + 1]) == Less;
        }
        if i :| 0 <= i < |a| && i < |b| && a[..i] == b[..i] && cmp(a[i], b[i]) == Less {
          assert i > 0;
          assert a[1..][..i - 1] == a[..i][1..] && b[1..][..i - 1] == b[..i][1..];
          assert cmp(a[1..][i - 1], b[1..][i - 1]) == Less;
        }
      } else {
        assert a[..0] == b[..0];
        forall i | 0 < i < |a| && i < |b| ensures a[..i] != b[..i] {
          assert a[..i][0] == a[0] && b[..i][0] == b[0];
        }
      }
    }
  }

  lemma HeadShared<T>(a: seq<T>, b: seq<T>)
    requires a != [] && b != [] && a[0] == b[0]
    ensures a < b <==> a[1..] < b[1..]
  {
    assert a == [a[0]] + a[1..] && b == [b[0]] + b[1..];
    if a[1..] < b[1..] {
      assert b[1..][..|a| - 1] == a[1..];
      assert b[..|a|] == [b[0]] + b[1..][..|a| - 1];
    }
  }

  /**
   * Canonical order said outright: an ancestor first, otherwise the name with the lower label at the first label, from
   * the root down, in which the two differ.
   */
  lemma BeforeIff(a: Name, b: Name)
    ensures Before(a, b) <==>
      a < b || exists i :: 0 <= i < |a| && i < |b| && a[..i] == b[..i] && LabelFirst(a[i], b[i])
  {
    CanonicalOrderIsTotal();
    LexIff(CompareLabels, a, b);
    forall x, y ensures CompareLabels(x, y) == Less <==> LabelFirst(x, y) {
      LexIff(CompareChars, x, y);
    }
  }

  /** Where the first different octet is the lower one, whatever follows it. */
  lemma LowerOctetFirst(z: Name, p: Label, c: char, d: char, s: Label, t: Label, m: Name, n: Name)
    requires c < d
    ensures Before(z + [p + [c] + s] + m, z + [p + [d] + t] + n)
  {
    var x, y := p + [c] + s, p + [d] + t;
    var a, b := z + [x] + m, z + [y] + n;
    assert x[..|p|] == p == y[..|p|] && x[|p|] == c && y[|p|] == d;
    assert a[..|z|] == z == b[..|z|] && a[|z|] == x && b[|z|] == y;
    BeforeIff(a, b);
  }

  lemma ShorterLabelFirst(z: Name, x: Label, y: Label, m: Name, n: Name)
    requires x < y
    ensures Before(z + [x] + m, z + [y] + n)
  {
    var a, b := z + [x] + m, z + [y] + n;
    assert a[..|z|] == z == b[..|z|] && a[|z|] == x && b[|z|] == y;
    BeforeIff(a, b);
  }

  // ---- a subtree is an interval of the order ----

  /** An ancestor comes before everything beneath it. */
  lemma {:induction false} AncestorFirst(zone: Name, n: Name)
    requires InZone(n, zone) && n != zone
    ensures Before(zone, n)
  {
    if zone != [] {
      CanonicalOrderIsTotal();
      assert n[0] == zone[0];
      AncestorFirst(zone[1..], n[1..]);
    }
  }

  /** Whatever sorts between two names of a subtree belongs to the subtree. */
  lemma {:induction false} SubtreeIsInterval(zone: Name, a: Name, b: Name, c: Name)
    requires InZone(a, zone) && InZone(c, zone)
    requires Before(a, b) && Before(b, c)
    ensures InZone(b, zone)
  {
    if zone != [] {
      CanonicalOrderIsTotal();
      assert a[0] == zone[0] == c[0];
      assert CompareLabels(c[0], b[0]) != Less;
      assert b[0] == zone[0];
      SubtreeIsInterval(zone[1..], a[1..], b[1..], c[1..]);
    }
  }
}
