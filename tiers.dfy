/**
 * The donation calculator's click handler: the tier buttons' 'active' class, the amount label,
 * and the three impact displays that start counting towards the new impact.
 */
module Tiers {
  import opened Impact
  import opened DecimalText
  import opened ValueAnimation

  /** The class flags after a click on button `i` of `n`: only button `i` is active. */
  function OnlyAt(n: nat, i: int): (s: seq<bool>)
    ensures |s| == n
    ensures forall k :: 0 <= k < n ==> (s[k] <==> k == i)
  {
    seq(n, k => k == i)
  }

  /** How many buttons carry 'active'. */
  function CountActive(s: seq<bool>): nat
  {
    if s == [] then 0 else (if s[0] then 1 else 0) + CountActive(s[1..])
  }

  /** Exactly one tier is active after a click on an existing button, none for any other index. */
  lemma {:induction false} OnlyAtCount(n: nat, i: int)
    ensures CountActive(OnlyAt(n, i)) == if 0 <= i < n then 1 else 0
  {
    if n > 0 {
      assert OnlyAt(n, i)[1..] == OnlyAt(n - 1, i - 1);
      OnlyAtCount(n - 1, i - 1);
    }
  }

  class DonationCalculator {
    /** Whether each .donation-btn carries the 'active' class. */
    const active: array<bool>
    /** Each button's data-amount, already read as an integer. */
    const amounts: seq<int>
    /** The text of #donationAmount. */
    var amountText: string
    const meals: Display
    const nights: Display
    const kits: Display

    ghost predicate Valid()
      reads this
    {
      active.Length == |amounts|
    }

    constructor (initiallyActive: seq<bool>, amounts: seq<int>, amountText: string,
                 meals: Display, nights: Display, kits: Display)
      requires |initiallyActive| == |amounts|
      ensures Valid() && fresh(active) && active[..] == initiallyActive
      ensures this.amounts == amounts && this.amountText == amountText
      ensures this.meals == meals && this.nights == nights && this.kits == kits
    {
      active := new bool[|initiallyActive|](k requires 0 <= k < |initiallyActive| => initiallyActive[k]);
      this.amounts := amounts;
      this.amountText := amountText;
      this.meals, this.nights, this.kits := meals, nights, kits;
    }

    /**
     * A click on button `i`: clear 'active' on every button, set it on button `i`, show the
     * amount and start one animation per impact display, from what it shows now.
     * Animations still running from an earlier click go on.
     */
    method Click(i: nat) returns (m: ValueAnimator, n: ValueAnimator, k: ValueAnimator)
      requires Valid() && i < active.Length
      modifies this, active
      ensures Valid()
      ensures active[..] == OnlyAt(active.Length, i)
      ensures amountText == DollarLabel(amounts[i])
      ensures fresh(m) && fresh(n) && fresh(k)
      ensures m.Valid() && m.running && m.step == 0
      ensures n.Valid() && n.running && n.step == 0
      ensures k.Valid() && k.running && k.step == 0
      ensures m.display == meals && m.target == ImpactOf(amounts[i]).meals && m.startValue == old(meals.text)
      ensures n.display == nights && n.target == ImpactOf(amounts[i]).nights && n.startValue == old(nights.text)
      ensures k.display == kits && k.target == ImpactOf(amounts[i]).kits && k.startValue == old(kits.text)
      ensures meals.text == old(meals.text) && nights.text == old(nights.text) && kits.text == old(kits.text)
    {
      var j := 0;
      while j < active.Length
        invariant 0 <= j <= active.Length
        invariant forall q :: 0 <= q < j ==> !active[q]
      {
        active[j] := false;
        j := j + 1;
      }
      active[i] := true;
      assert active[..] == OnlyAt(active.Length, i);

      var amount := amounts[i];
      amountText := DollarLabel(amount);
      var impact := ImpactOf(amount);
      m := new ValueAnimator(meals, impact.meals);
      n := new ValueAnimator(nights, impact.nights);
      k := new ValueAnimator(kits, impact.kits);
    }
  }

  /**
   * A click on tier `a` followed by a click on tier `b`: `b` is then the one active tier and `a`,
   * if different, is not; the label shows `b`'s amount.
   */
  method ClickTwice(c: DonationCalculator, a: nat, b: nat)
    requires c.Valid() && a < c.active.Length && b < c.active.Length
    modifies c, c.active
    ensures c.Valid()
    ensures c.active[..] == OnlyAt(c.active.Length, b) && CountActive(c.active[..]) == 1
    ensures c.active[b] && (a != b ==> !c.active[a])
    ensures c.amountText == DollarLabel(c.amounts[b])
  {
    var m, n, k := c.Click(a);
    m, n, k := c.Click(b);
    OnlyAtCount(c.active.Length, b);
  }
}
