/** Names as the database stores them: lower-case text, labels leftmost first, a trailing dot. */
module NameText {
  import opened Basics
  import opened Names

  predicate WellFormed(n: Name) {
    forall i :: 0 <= i < |n| ==> n[i] != "" && '.' !in n[i]
  }

  /** The labels of a name as text, each followed by a dot; empty for the root. */
  function Dotted(n: Name): string {
    if n == [] then "" else n[|n| - 1] + "." + Dotted(Parent(n))
  }

  function Render(n: Name): string {
    if n == [] then "." else Dotted(n)
  }

  /** `name_in_zone` on normalized text: equal, or the root zone, or a suffix behind a dot. */
  predicate TextInZone(name: string, zone: string) {
    name == zone || zone == "." || EndsWith(name, "." + zone)
  }

  /** The first label ends at the first dot, so equal text means equal labels. */
  lemma {:induction false} DottedInjective(a: Name, b: Name)
    requires WellFormed(a) && WellFormed(b) && Dotted(a) == Dotted(b)
    ensures a == b
  {
    if a != [] && b != [] {
      var x, y := a[|a| - 1], b[|b| - 1];
      FirstDot(x, Dotted(Parent(a)), y, Dotted(Parent(b)));
      DottedInjective(Parent(a), Parent(b));
      assert a == Parent(a) + [x] && b == Parent(b) + [y];
    }
  }

  lemma FirstDot(x: string, restX: string, y: string, restY: string)
    requires '.' !in x && '.' !in y
    requires x + "." + restX == y + "." + restY
    ensures x == y && restX == restY
  {
    var s := x + "." + restX;
    assert s[|x|] == '.' && s[|y|] == '.';
    assert |x| == |y|;
    assert x == s[..|x|] && y == s[..|y|];
    assert restX == s[|x| + 1..] && restY == s[|y| + 1..];
  }

  lemma EndsWithExtends(head: string, s: string, suffix: string)
    requires EndsWith(s, suffix)
    ensures EndsWith(head + s, suffix)
  {
  }

  lemma {:induction false} DescendantEndsWith(n: Name, zone: Name)
    requires zone < n
    ensures EndsWith(Dotted(n), "." + Dotted(zone))
  {
    var head, tail := n[|n| - 1], Dotted(Parent(n));
    if Parent(n) == zone {
      assert Dotted(n) == head + ("." + tail);
      EndsWithExtends(head, "." + tail, "." + tail);
    } else {
      DescendantEndsWith(Parent(n), zone);
      assert Dotted(n) == (head + ".") + tail;
      EndsWithExtends(head + ".", tail, "." + Dotted(zone));
    }
  }

  lemma {:induction false} EndsWithDescends(n: Name, zone: Name)
    requires WellFormed(n) && WellFormed(zone)
    requires EndsWith(Dotted(n), "." + Dotted(zone))
    ensures zone < n
  {
    var suffix := "." + Dotted(zone);
    var head, tail := n[|n| - 1], Dotted(Parent(n));
    var text := Dotted(n);
    assert text == (head + ".") + tail;
    var at := |text| - |suffix|;
    assert text[at] == suffix[0] == '.';
    if at == |head| {
      assert text[at..] == "." + tail;
      assert tail == ("." + tail)[1..] == suffix[1..] == Dotted(zone);
      DottedInjective(Parent(n), zone);
    } else {
      assert |suffix| <= |tail|;
      assert text[at..] == tail[|tail| - |suffix|..];
      EndsWithDescends(Parent(n), zone);
    }
  }

  /**
   * The text test matches on label boundaries and nowhere else: it accepts exactly the names whose
   * labels start with the zone's.
   */
  lemma TextInZoneIsInZone(n: Name, zone: Name)
    requires WellFormed(n) && WellFormed(zone)
    ensures TextInZone(Render(n), Render(zone)) <==> InZone(n, zone)
  {
    if zone == [] {
    } else if n == [] {
      assert |Render(zone)| >= 2;
    } else {
      if InZone(n, zone) && n != zone {
        DescendantEndsWith(n, zone);
      }
      if EndsWith(Render(n), "." + Render(zone)) {
        EndsWithDescends(n, zone);
      }
      if Render(n) == Render(zone) {
        DottedInjective(n, zone);
      }
      if Render(zone) == "." {
        assert zone[|zone| - 1] != "";
      }
    }
  }
}
