/**
 * Autocompletion for the "give premium subscription" admin command: every
 * SKU of the application becomes a choice labelled with its name, kind and
 * flags; subscription groups are filtered out by label and at most 25
 * choices are offered.
 */
module PremiumSku {
  import opened Wrappers
  import Text

  /** Discord's SKU kinds as the client library decodes them; 2 and 3 arrive as `Unknown`. */
  datatype SkuKind = Subscription | SubscriptionGroup | Unknown(code: nat)

  datatype Sku = Sku(id: nat, name: string, kind: SkuKind, flags: nat)

  /** An autocomplete choice: the label shown and the value sent back. */
  datatype Choice = Choice(text: string, value: string)

  /** What the handler does with the interaction. */
  datatype Response = NoResponse | Respond(choices: seq<Choice>) | Panicked

  const LabelLimit: nat := 100
  const ChoiceLimit: nat := 25

  /** The flag bits the label reports. */
  const AvailableBit: nat := 4
  const GuildSubscriptionBit: nat := 128
  const UserSubscriptionBit: nat := 256

  /** `(bit & bits) != 0` for a single-bit mask `bit`. */
  predicate HasFlag(bits: nat, bit: nat)
    requires bit > 0
  {
    (bits / bit) % 2 == 1
  }

  function KindText(kind: SkuKind): string {
    match kind
    case Subscription => "Subscription"
    case SubscriptionGroup => "Subscription Group"
    case Unknown(code) =>
      if code == 2 then "DURABLE" else if code == 3 then "CONSUMABLE" else "Unknown"
  }

  /** `flags2`: set when the SKU is available. */
  function AvailabilityText(bits: nat): string {
    if HasFlag(bits, AvailableBit) then "is available " else ""
  }

  /** `flags`: what the subscription covers, guild first. */
  function SubscriptionText(bits: nat): string {
    (if HasFlag(bits, GuildSubscriptionBit) then "guild subscription " else "")
    + (if HasFlag(bits, UserSubscriptionBit) then "user subscription " else "")
  }

  /** The label before truncation. */
  function Formatted(sku: Sku): string {
    sku.name + " " + KindText(sku.kind) + " for " + SubscriptionText(sku.flags) + " " + AvailabilityText(sku.flags)
  }

  /** The label: the first 100 characters of the formatted text. */
  function Label(sku: Sku): string {
    Text.Take(Formatted(sku), LabelLimit)
  }

  function ChoiceOf(sku: Sku): Choice {
    Choice(Label(sku), Text.NatToDecimal(sku.id))
  }

  predicate NamesGroup(c: Choice) {
    Text.Contains(c.text, "Subscription Group")
  }

  /** The choices that survive the filter, in SKU order. */
  function Kept(skus: seq<Sku>): (r: seq<Choice>)
    ensures |r| <= |skus|
  {
    if skus == [] then []
    else
      var c := ChoiceOf(skus[|skus| - 1]);
      Kept(skus[..|skus| - 1]) + (if NamesGroup(c) then [] else [c])
  }

  /** The choices offered: the first 25 kept. */
  function Choices(skus: seq<Sku>): seq<Choice> {
    Text.Take(Kept(skus), ChoiceLimit)
  }

  /**
   * The handler: nothing without a `user` option; the SKU listing is
   * unwrapped, so a failed listing panics; an empty choice list sends nothing.
   */
  function GivePremiumSubAutocomplete(user: Option<nat>, listing: Result<seq<Sku>, string>): (r: Response)
    ensures user.None? ==> r == NoResponse
    ensures user.Some? && listing.Err? ==> r == Panicked
    ensures user.Some? && listing.Ok? ==>
      (r == NoResponse <==> Choices(listing.value) == [])
    ensures r.Respond? ==> user.Some? && listing.Ok? && r.choices == Choices(listing.value)
    ensures r.Respond? ==> 0 < |r.choices| <= ChoiceLimit
    ensures r.Respond? ==> r.choices == Kept(listing.value)[..|r.choices|]
    ensures r.Respond? ==> forall c :: c in r.choices ==>
      !NamesGroup(c) && exists i :: 0 <= i < |listing.value| && c == ChoiceOf(listing.value[i])
  {
    if user.None? then NoResponse
    else match listing
      case Err(_) => Panicked
      case Ok(skus) =>
        var choices := Choices(skus);
        ChoicesAreFirstKept(skus);
        KeptChoicesAreClean(skus);
        PrefixMembers(Kept(skus), |choices|);
        if choices == [] then NoResponse else Respond(choices)
  }

  lemma PrefixMembers<T>(xs: seq<T>, n: nat)
    requires n <= |xs|
    ensures forall x :: x in xs[..n] ==> x in xs
  {
    forall x | x in xs[..n] ensures x in xs {
      var k :| 0 <= k < n && xs[..n][k] == x;
      assert xs[k] == x;
    }
  }

  // ----------------------------------------------------------------- lemmas

  /** A label never exceeds 100 characters and is a prefix of the formatted text, which it equals when short. */
  lemma LabelIsTruncatedFormat(sku: Sku)
    ensures |Label(sku)| <= LabelLimit
    ensures Label(sku) == Formatted(sku)[..|Label(sku)|]
    ensures |Formatted(sku)| <= LabelLimit ==> Label(sku) == Formatted(sku)
  {
  }

  /** The formatted label ends in "is available " exactly when bit 2 is set;
      otherwise it ends in the blank after the subscription text. */
  lemma AvailabilityShownIff(sku: Sku)
    ensures var f := Formatted(sku);
      |f| >= 13 && (f[|f| - 13..] == "is available " <==> HasFlag(sku.flags, AvailableBit))
  {
    var f := Formatted(sku);
    var sub := SubscriptionText(sku.flags);
    var pre := sku.name + " " + KindText(sku.kind) + " for " + sub + " ";
    assert f == pre + AvailabilityText(sku.flags);
    assert |KindText(sku.kind)| >= 7;
    if !HasFlag(sku.flags, AvailableBit) {
      assert f == pre;
      assert sub == [] || sub[|sub| - 1] == ' ';
      assert f[|f| - 2] == ' ';
      assert "is available "[11] == 'e';
    }
  }

  /** The subscription text tells bits 7 and 8 apart: equal texts mean equal bits, and back. */
  lemma SubscriptionTextIsFaithful(b1: nat, b2: nat)
    ensures SubscriptionText(b1) == SubscriptionText(b2) <==>
      (HasFlag(b1, GuildSubscriptionBit) == HasFlag(b2, GuildSubscriptionBit)
       && HasFlag(b1, UserSubscriptionBit) == HasFlag(b2, UserSubscriptionBit))
  {
  }

  /** The kind reads "Subscription Group" exactly for group SKUs. */
  lemma GroupKindText(kind: SkuKind)
    ensures KindText(kind) == "Subscription Group" <==> kind.SubscriptionGroup?
  {
  }

  /** The filter is applied element by element, so it keeps SKU order. */
  lemma {:induction false} KeptAppend(a: seq<Sku>, b: seq<Sku>)
    ensures Kept(a + b) == Kept(a) + Kept(b)
    decreases |b|
  {
    if b == [] {
      assert a + b == a;
    } else {
      var b' := b[..|b| - 1];
      var c := ChoiceOf(b[|b| - 1]);
      var tail := if NamesGroup(c) then [] else [c];
      assert (a + b)[..|a + b| - 1] == a + b';
      assert (a + b)[|a + b| - 1] == b[|b| - 1];
      KeptAppend(a, b');
      assert Kept(a + b) == Kept(a + b') + tail;
      assert Kept(b) == Kept(b') + tail;
      assert (Kept(a) + Kept(b')) + tail == Kept(a) + (Kept(b') + tail);
    }
  }

  /** One SKU is offered exactly when its label does not mention a subscription group. */
  lemma KeptSingle(sku: Sku)
    ensures Kept([sku]) == (if NamesGroup(ChoiceOf(sku)) then [] else [ChoiceOf(sku)])
  {
    assert [sku][..0] == [];
  }

  /** Every kept choice comes from some SKU and mentions no subscription group. */
  lemma {:induction false} KeptChoicesAreClean(skus: seq<Sku>)
    ensures forall c :: c in Kept(skus) ==> !NamesGroup(c) && exists i :: 0 <= i < |skus| && c == ChoiceOf(skus[i])
    decreases |skus|
  {
    if skus != [] {
      var init := skus[..|skus| - 1];
      KeptChoicesAreClean(init);
      forall c | c in Kept(skus)
        ensures !NamesGroup(c) && exists i :: 0 <= i < |skus| && c == ChoiceOf(skus[i])
      {
        if c in Kept(init) {
          var i :| 0 <= i < |init| && c == ChoiceOf(init[i]);
          assert skus[i] == init[i];
        } else {
          assert c == ChoiceOf(skus[|skus| - 1]);
        }
      }
    }
  }

  /** A SKU whose label does not mention a subscription group is kept. */
  lemma {:induction false} CleanChoicesAreKept(skus: seq<Sku>, i: nat)
    requires i < |skus| && !NamesGroup(ChoiceOf(skus[i]))
    ensures ChoiceOf(skus[i]) in Kept(skus)
    decreases |skus|
  {
    if i < |skus| - 1 {
      assert skus[..|skus| - 1][i] == skus[i];
      CleanChoicesAreKept(skus[..|skus| - 1], i);
    }
  }

  /** At most 25 choices, the first ones kept, and all of them once fewer survive. */
  lemma ChoicesAreFirstKept(skus: seq<Sku>)
    ensures |Choices(skus)| <= ChoiceLimit
    ensures Choices(skus) == Kept(skus)[..|Choices(skus)|]
    ensures |Kept(skus)| <= ChoiceLimit ==> Choices(skus) == Kept(skus)
  {
  }

  /** A group SKU whose label is short enough to carry its kind is never offered. */
  lemma ShortGroupIsHidden(sku: Sku)
    requires sku.kind.SubscriptionGroup? && |Formatted(sku)| <= LabelLimit
    ensures NamesGroup(ChoiceOf(sku)) && Kept([sku]) == []
  {
    var s := Formatted(sku);
    var i := |sku.name| + 1;
    assert s[i..i + 18] == "Subscription Group";
    Text.ContainsAt(s, "Subscription Group", i);
    KeptSingle(sku);
  }

  /**
   * The filter reads the truncated label, not the kind: a group SKU with a
   * 99-character name loses "Subscription Group" to the cut and is offered.
   */
  lemma LongGroupNameSlipsThrough(sku: Sku)
    requires sku.kind.SubscriptionGroup? && |sku.name| == 99 && 'S' !in sku.name
    ensures Kept([sku]) == [ChoiceOf(sku)]
  {
    var shown := Label(sku);
    assert shown == sku.name + " ";
    assert 'S' !in shown by {
      forall k | 0 <= k < |shown| ensures shown[k] != 'S' {
        if k < 99 { assert shown[k] == sku.name[k]; }
      }
    }
    Text.NotContainsWithoutFirstChar(shown, "Subscription Group");
    KeptSingle(sku);
  }
}
