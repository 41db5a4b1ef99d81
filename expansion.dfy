/**
 * The expansion list of a navigation sidebar: the ids of the expanded groups, in the
 * order they were expanded. `toggleExpanded(id)` filters `id` out when it is present
 * and appends it otherwise. Both sidebars use this rule on their own list.
 */
module Expansion {

  /** `xs.filter((id) => id !== x)`. */
  function Remove(xs: seq<string>, x: string): (r: seq<string>)
    ensures x !in r
    ensures forall y | y != x :: y in r <==> y in xs
    ensures multiset(r) == multiset(xs)[x := 0]
  {
    if xs == [] then []
    else if xs[0] == x then
      assert xs == [xs[0]] + xs[1..];
      Remove(xs[1..], x)
    else
      assert xs == [xs[0]] + xs[1..];
      [xs[0]] + Remove(xs[1..], x)
  }

  /** The list after `toggleExpanded(x)`. */
  function Toggled(xs: seq<string>, x: string): (r: seq<string>)
    ensures x in r <==> x !in xs
    ensures forall y | y != x :: y in r <==> y in xs
  {
    if x in xs then Remove(xs, x) else xs + [x]
  }

  /** Every id occurs at most once. */
  ghost predicate NoDup(xs: seq<string>) {
    forall y | y in xs :: multiset(xs)[y] == 1
  }

  /** Filtering out an id that does not occur changes nothing. */
  lemma {:induction false} RemoveAbsent(xs: seq<string>, x: string)
    requires x !in xs
    ensures Remove(xs, x) == xs
    decreases |xs|
  {
    if xs != [] {
      RemoveAbsent(xs[1..], x);
      assert xs == [xs[0]] + xs[1..];
    }
  }

  lemma {:induction false} RemoveAppend(xs: seq<string>, ys: seq<string>, x: string)
    ensures Remove(xs + ys, x) == Remove(xs, x) + Remove(ys, x)
    decreases |xs|
  {
    if xs == [] {
      assert xs + ys == ys;
    } else {
      var zs := xs + ys;
      assert zs[0] == xs[0] && zs[1..] == xs[1..] + ys;
      RemoveAppend(xs[1..], ys, x);
      if xs[0] == x {
        calc {
          Remove(zs, x);
          Remove(xs[1..] + ys, x);
          Remove(xs[1..], x) + Remove(ys, x);
        }
      } else {
        calc {
          Remove(zs, x);
          [xs[0]] + Remove(xs[1..] + ys, x);
          [xs[0]] + (Remove(xs[1..], x) + Remove(ys, x));
          ([xs[0]] + Remove(xs[1..], x)) + Remove(ys, x);
        }
      }
    }
  }

  /** Filtering out an id keeps the others in their order: it is the list without the id. */
  lemma {:induction false} RemoveKeepsOrder(xs: seq<string>, x: string, i: nat)
    requires i < |xs| && xs[i] != x
    ensures Remove(xs, x) == Remove(xs[..i], x) + [xs[i]] + Remove(xs[i+1..], x)
  {
    assert xs == xs[..i] + ([xs[i]] + xs[i+1..]);
    RemoveAppend(xs[..i], [xs[i]] + xs[i+1..], x);
    RemoveAppend([xs[i]], xs[i+1..], x);
    assert Remove([xs[i]], x) == [xs[i]] + Remove([], x);
  }

  /** Toggling keeps a duplicate-free list duplicate-free. */
  lemma ToggledKeepsNoDup(xs: seq<string>, x: string)
    requires NoDup(xs)
    ensures NoDup(Toggled(xs, x))
  {
    var r := Toggled(xs, x);
    if x !in xs {
      assert multiset(r) == multiset(xs) + multiset{x};
    }
  }

  /**
   * Toggling twice restores membership exactly; the list itself comes back unchanged when
   * the id was absent, and with the id moved to the end when it was present.
   */
  lemma ToggleTwice(xs: seq<string>, x: string)
    ensures Toggled(Toggled(xs, x), x) == if x in xs then Remove(xs, x) + [x] else xs
    ensures forall y :: y in Toggled(Toggled(xs, x), x) <==> y in xs
  {
    if x !in xs {
      RemoveAppend(xs, [x], x);
      RemoveAbsent(xs, x);
      assert Remove([x], x) == Remove([], x);
    }
  }

  /** Toggling x and toggling y != x commute up to membership. */
  lemma ToggleOthersCommute(xs: seq<string>, x: string, y: string)
    requires x != y
    ensures forall z :: z in Toggled(Toggled(xs, x), y) <==> z in Toggled(Toggled(xs, y), x)
  {
  }

  /** The scenario of the dashboard sidebar's seed list. */
  lemma SeedScenario()
    ensures Toggled(["dashboards", "pages"], "dashboards") == ["pages"]
    ensures Toggled(["pages"], "dashboards") == ["pages", "dashboards"]
  {
    assert "dashboards" != "pages";
    assert "dashboards" in ["dashboards", "pages"];
    assert "dashboards" !in ["pages"];
    assert ["dashboards", "pages"][1..] == ["pages"];
  }
}
