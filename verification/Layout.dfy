/** The responsive layout resolver, in 32-bit arithmetic. Every sum, difference and product here is shown to fit. */
module Layout {
  import opened Common

  newtype u32 = x: int | 0 <= x <= 0xFFFF_FFFF

  const PHONE_BREAKPOINT: u32 := 760
  const DESKTOP_TOP_BAR: u32 := 44
  const PHONE_ACTIVITY_STRIP: u32 := 66
  const MASTER_MIN_PERCENT: u32 := 38
  const MASTER_MAX_PERCENT: u32 := 76
  const U32_MAX: u32 := 0xFFFF_FFFF

  /** Margins and gap of the desktop workspace, and its top edge. */
  const INSET: u32 := 10
  const GAP: u32 := 10
  const TOP: u32 := DESKTOP_TOP_BAR + INSET

  datatype LayoutMode = Master | Grid | Single | Focus

  datatype Viewport = Viewport(width: u32, height: u32) {
    predicate IsPhone() {
      width < PHONE_BREAKPOINT
    }
  }

  datatype Rect = Rect(x: u32, y: u32, width: u32, height: u32)

  datatype SlotKind = Primary | Secondary | Phone

  datatype SurfaceSlot = SurfaceSlot(surfaceIndex: nat, kind: SlotKind, rect: Rect)

  datatype LayoutPlan = LayoutPlan(viewport: Viewport, mode: LayoutMode, phone: bool, masterPercent: u32,
                                   stackCount: nat, activityStripHeight: u32, slots: seq<SurfaceSlot>)

  function SaturatingSub(a: u32, b: u32): (r: u32)
    ensures r as int == if a < b then 0 else a as int - b as int
  {
    if a < b then 0 else a - b
  }

  function SaturatingMul(a: u32, b: u32): (r: u32)
    ensures r as int == if a as int * b as int > U32_MAX as int then U32_MAX as int else a as int * b as int
  {
    if a as int * b as int > U32_MAX as int then U32_MAX else (a as int * b as int) as u32
  }

  function Clamp(percent: u32): (r: u32)
    ensures MASTER_MIN_PERCENT <= r <= MASTER_MAX_PERCENT
  {
    if percent < MASTER_MIN_PERCENT then MASTER_MIN_PERCENT
    else if percent > MASTER_MAX_PERCENT then MASTER_MAX_PERCENT
    else percent
  }

  lemma ShareFits(total: int, percent: int)
    requires 0 <= total && 0 <= percent <= 76
    ensures 0 <= total * percent <= 76 * total
  {
  }

  /** The master column never takes more than 76 percent, even where the product saturates. */
  function MasterWidth(width: u32, percent: u32): (r: u32)
    requires percent <= MASTER_MAX_PERCENT
    ensures 100 * (r as int) <= 76 * (SaturatingSub(width, GAP) as int)
  {
    ShareFits(SaturatingSub(width, GAP) as int, percent as int);
    SaturatingMul(SaturatingSub(width, GAP), percent) / 100
  }

  function StackGap(count: nat): u32 {
    if count > 1 then GAP else 0
  }

  /** An equal share of a length among one or two, after the gap. */
  function Share(length: u32, gap: u32, count: nat): (r: u32)
    requires 1 <= count <= 2
    ensures count as int * r as int <= SaturatingSub(length, gap) as int
  {
    SaturatingSub(length, gap) / count as u32
  }

  function StackSlot(height: u32, masterWidth: u32, stackWidth: u32, count: nat, index: nat): SurfaceSlot
    requires index < count <= 2
    requires masterWidth as int + 20 <= U32_MAX as int && height as int + 64 <= U32_MAX as int
  {
    var each := Share(height, StackGap(count), count);
    SurfaceSlot(index + 1, Secondary,
                Rect(INSET + masterWidth + GAP, TOP + index as u32 * (each + StackGap(count)), stackWidth, each))
  }

  function StackSlots(height: u32, masterWidth: u32, stackWidth: u32, count: nat, n: nat): (r: seq<SurfaceSlot>)
    requires n <= count <= 2
    requires masterWidth as int + 20 <= U32_MAX as int && height as int + 64 <= U32_MAX as int
    ensures |r| == n && forall i | 0 <= i < n :: r[i] == StackSlot(height, masterWidth, stackWidth, count, i)
  {
    if n == 0 then []
    else StackSlots(height, masterWidth, stackWidth, count, n - 1) + [StackSlot(height, masterWidth, stackWidth, count, n - 1)]
  }

  function GridSlot(width: u32, height: u32, count: nat, index: nat): SurfaceSlot
    requires index < count <= 2
    requires width as int + 20 <= U32_MAX as int
  {
    var each := Share(width, GAP, count);
    SurfaceSlot(index, if index == 0 then Primary else Secondary, Rect(INSET + index as u32 * (each + GAP), TOP, each, height))
  }

  function GridSlots(width: u32, height: u32, count: nat, n: nat): (r: seq<SurfaceSlot>)
    requires n <= count <= 2
    requires width as int + 20 <= U32_MAX as int
    ensures |r| == n && forall i | 0 <= i < n :: r[i] == GridSlot(width, height, count, i)
  {
    if n == 0 then [] else GridSlots(width, height, count, n - 1) + [GridSlot(width, height, count, n - 1)]
  }

  function DesktopWidth(v: Viewport): (r: u32)
    ensures v.width >= 20 ==> r as int + 20 == v.width as int
    ensures v.width < 20 ==> r == 0
  {
    SaturatingSub(v.width, INSET * 2)
  }

  function DesktopHeight(v: Viewport): (r: u32)
    ensures r as int == if v.height < 64 then 0 else v.height as int - 64
  {
    SaturatingSub(v.height, TOP + INSET)
  }

  /** What the desktop shows: a master with up to two stacked, two side by side, or one. */
  function DesktopSlots(v: Viewport, mode: LayoutMode, percent: u32, surfaces: nat): seq<SurfaceSlot>
    requires !v.IsPhone() && percent <= MASTER_MAX_PERCENT
  {
    var width, height, visible := DesktopWidth(v), DesktopHeight(v), Min(surfaces, 3);
    if visible == 0 then []
    else match mode
      case Master =>
        var masterWidth := MasterWidth(width, percent);
        [SurfaceSlot(0, Primary, Rect(INSET, TOP, masterWidth, height))]
        + StackSlots(height, masterWidth, SaturatingSub(width, masterWidth + GAP), visible - 1, visible - 1)
      case Grid => GridSlots(width, height, Min(visible, 2), Min(visible, 2))
      case _ => [SurfaceSlot(0, Primary, Rect(INSET, TOP, width, height))]
  }

  function PhoneSlots(v: Viewport, surfaces: nat): seq<SurfaceSlot> {
    if surfaces == 0 then []
    else [SurfaceSlot(0, Phone, Rect(8, 48, SaturatingSub(v.width, 16), SaturatingSub(v.height, 48 + PHONE_ACTIVITY_STRIP + 8)))]
  }

  function SecondaryCount(slots: seq<SurfaceSlot>): nat {
    if slots == [] then 0 else SecondaryCount(slots[..|slots| - 1]) + if slots[|slots| - 1].kind.Secondary? then 1 else 0
  }

  function Plan(v: Viewport, mode: LayoutMode, percent: u32, surfaces: nat): LayoutPlan {
    if v.IsPhone() then LayoutPlan(v, Single, true, Clamp(percent), 0, PHONE_ACTIVITY_STRIP, PhoneSlots(v, surfaces))
    else
      var slots := DesktopSlots(v, if surfaces == 0 then Single else mode, Clamp(percent), surfaces);
      LayoutPlan(v, if surfaces == 0 then Single else mode, false, Clamp(percent), SecondaryCount(slots), 0, slots)
  }

  method Resolve(viewport: Viewport, mode: LayoutMode, requestedMasterPercent: u32, surfaceCount: nat) returns (plan: LayoutPlan)
    ensures plan == Plan(viewport, mode, requestedMasterPercent, surfaceCount)
  {
    hide Clamp, PhoneSlots, SecondaryCount, SaturatingSub, MasterWidth, StackSlots, GridSlots;
    var percent := Clamp(requestedMasterPercent);
    if viewport.IsPhone() {
      return LayoutPlan(viewport, Single, true, percent, 0, PHONE_ACTIVITY_STRIP, PhoneSlots(viewport, surfaceCount));
    }
    var width, height := DesktopWidth(viewport), DesktopHeight(viewport);
    var visible := Min(surfaceCount, 3);
    var slots: seq<SurfaceSlot> := [];
    var resolved := if surfaceCount == 0 then Single else mode;
    match resolved {
      case Master => if visible > 0 { slots := MasterSlots(width, height, percent, visible); }
      case Grid => slots := GridRow(width, height, Min(visible, 2));
      case _ => if visible > 0 { slots := [SurfaceSlot(0, Primary, Rect(INSET, TOP, width, height))]; }
    }
    plan := LayoutPlan(viewport, resolved, false, percent, SecondaryCount(slots), 0, slots);
  }

  /** The master and the stack beside it. */
  method MasterSlots(width: u32, height: u32, percent: u32, visible: nat) returns (slots: seq<SurfaceSlot>)
    requires 1 <= visible <= 3 && percent <= MASTER_MAX_PERCENT
    requires width as int + 20 <= U32_MAX as int && height as int + 64 <= U32_MAX as int
    ensures var masterWidth := MasterWidth(width, percent);
            slots == [SurfaceSlot(0, Primary, Rect(INSET, TOP, masterWidth, height))]
                     + StackSlots(height, masterWidth, SaturatingSub(width, masterWidth + GAP), visible - 1, visible - 1)
  {
    hide MasterWidth, SaturatingSub, Share;
    var masterWidth := MasterWidth(width, percent);
    slots := [SurfaceSlot(0, Primary, Rect(INSET, TOP, masterWidth, height))];
    var stackX := INSET + masterWidth + GAP;
    var stackWidth := SaturatingSub(width, masterWidth + GAP);
    var stackCount := visible - 1;
    var stackGap := StackGap(stackCount);
    var eachHeight := if stackCount == 0 then 0 else Share(height, stackGap, stackCount);
    ghost var first := slots;
    for index := 0 to stackCount
      invariant slots == first + StackSlots(height, masterWidth, stackWidth, stackCount, index)
    {
      slots := slots + [SurfaceSlot(index + 1, Secondary, Rect(stackX, TOP + index as u32 * (eachHeight + stackGap), stackWidth, eachHeight))];
    }
  }

  /** Equal slots side by side. */
  method GridRow(width: u32, height: u32, count: nat) returns (slots: seq<SurfaceSlot>)
    requires count <= 2 && width as int + 20 <= U32_MAX as int
    ensures slots == GridSlots(width, height, count, count)
  {
    hide SaturatingSub, Share;
    slots := [];
    var eachWidth := if count == 0 then 0 else Share(width, GAP, count);
    for index := 0 to count
      invariant slots == GridSlots(width, height, count, index)
    {
      slots := slots + [SurfaceSlot(index, if index == 0 then Primary else Secondary,
                                    Rect(INSET + index as u32 * (eachWidth + GAP), TOP, eachWidth, height))];
    }
  }

  // ---- Geometry ----

  predicate Inside(r: Rect, v: Viewport) {
    r.x as int + r.width as int <= v.width as int && r.y as int + r.height as int <= v.height as int
  }

  /** No common area. */
  predicate Apart(a: Rect, b: Rect) {
    || a.x as int + a.width as int <= b.x as int
    || b.x as int + b.width as int <= a.x as int
    || a.y as int + a.height as int <= b.y as int
    || b.y as int + b.height as int <= a.y as int
  }

  /** The smallest viewport in which everything fits. */
  predicate BigEnough(v: Viewport, mode: LayoutMode, surfaces: nat) {
    if surfaces == 0 then true
    else if v.IsPhone() then v.width >= 8 && v.height >= 48
    else v.height >= if mode.Master? && surfaces >= 3 then 64 else 54
  }

  lemma StackedInside(v: Viewport, percent: u32, count: nat, index: nat)
    requires !v.IsPhone() && percent <= MASTER_MAX_PERCENT && index < count <= 2
    requires v.height >= if count == 2 then 64 else 54
    ensures var width, height := DesktopWidth(v), DesktopHeight(v);
            var masterWidth := MasterWidth(width, percent);
            Inside(StackSlot(height, masterWidth, SaturatingSub(width, masterWidth + GAP), count, index).rect, v)
  {
    hide MasterWidth, Share, SaturatingSub, DesktopWidth, DesktopHeight;
  }

  lemma GridInside(v: Viewport, count: nat, index: nat)
    requires !v.IsPhone() && index < count <= 2 && v.height >= 54
    ensures Inside(GridSlot(DesktopWidth(v), DesktopHeight(v), count, index).rect, v)
  {
    hide Share, SaturatingSub, DesktopWidth, DesktopHeight;
  }

  /** The k-th desktop slot. */
  function DesktopSlot(v: Viewport, mode: LayoutMode, percent: u32, surfaces: nat, k: nat): SurfaceSlot
    requires !v.IsPhone() && percent <= MASTER_MAX_PERCENT && k < Min(surfaces, 3) && (mode.Grid? ==> k < 2)
  {
    var width, height := DesktopWidth(v), DesktopHeight(v);
    match mode
    case Master =>
      var masterWidth := MasterWidth(width, percent);
      if k == 0 then SurfaceSlot(0, Primary, Rect(INSET, TOP, masterWidth, height))
      else StackSlot(height, masterWidth, SaturatingSub(width, masterWidth + GAP), Min(surfaces, 3) - 1, k - 1)
    case Grid => GridSlot(width, height, Min(surfaces, 2), k)
    case _ => SurfaceSlot(0, Primary, Rect(INSET, TOP, width, height))
  }

  lemma DesktopSlotsAre(v: Viewport, mode: LayoutMode, percent: u32, surfaces: nat)
    requires !v.IsPhone() && percent <= MASTER_MAX_PERCENT
    ensures var slots := DesktopSlots(v, mode, percent, surfaces);
            && |slots| == (match mode { case Master => Min(surfaces, 3) case Grid => Min(surfaces, 2) case _ => Min(surfaces, 1) })
            && forall k | 0 <= k < |slots| :: slots[k] == DesktopSlot(v, mode, percent, surfaces, k)
  {
    hide Share, MasterWidth, DesktopWidth, DesktopHeight, SaturatingSub, StackSlot, GridSlot;
  }

  lemma DesktopInside(v: Viewport, mode: LayoutMode, percent: u32, surfaces: nat, k: nat)
    requires !v.IsPhone() && percent <= MASTER_MAX_PERCENT && k < Min(surfaces, 3) && (mode.Grid? ==> k < 2)
    requires BigEnough(v, mode, surfaces)
    ensures Inside(DesktopSlot(v, mode, percent, surfaces, k).rect, v)
  {
    hide MasterWidth, Share, StackSlot, GridSlot, SaturatingSub, DesktopWidth, DesktopHeight;
    match mode
    case Master => if k > 0 { StackedInside(v, percent, Min(surfaces, 3) - 1, k - 1); }
    case Grid => GridInside(v, Min(surfaces, 2), k);
    case _ =>
  }

  lemma SlotInside(v: Viewport, mode: LayoutMode, percent: u32, surfaces: nat, k: nat)
    requires k < |Plan(v, mode, percent, surfaces).slots| && BigEnough(v, mode, surfaces)
    ensures Inside(Plan(v, mode, percent, surfaces).slots[k].rect, v)
  {
    if !v.IsPhone() {
      var resolved := if surfaces == 0 then Single else mode;
      DesktopSlotsAre(v, resolved, Clamp(percent), surfaces);
      hide DesktopSlots, DesktopSlot, Inside, Clamp;
      DesktopInside(v, resolved, Clamp(percent), surfaces, k);
    }
  }

  /** Some slot sticks out of a viewport that is too small. */
  lemma SlotOutside(v: Viewport, mode: LayoutMode, percent: u32, surfaces: nat)
    requires !BigEnough(v, mode, surfaces)
    ensures exists k | 0 <= k < |Plan(v, mode, percent, surfaces).slots| :: !Inside(Plan(v, mode, percent, surfaces).slots[k].rect, v)
  {
    var slots := Plan(v, mode, percent, surfaces).slots;
    var k := if !v.IsPhone() && mode.Master? && surfaces >= 3 then 2 else 0;
    assert k < |slots| && !Inside(slots[k].rect, v);
  }

  /** Every slot lies inside the viewport exactly when the viewport is at least that big, whatever the percentage. */
  lemma SlotsInsideIff(v: Viewport, mode: LayoutMode, percent: u32, surfaces: nat)
    ensures (forall k | 0 <= k < |Plan(v, mode, percent, surfaces).slots| :: Inside(Plan(v, mode, percent, surfaces).slots[k].rect, v))
            <==> BigEnough(v, mode, surfaces)
  {
    hide Plan, Inside;
    if BigEnough(v, mode, surfaces) {
      forall k | 0 <= k < |Plan(v, mode, percent, surfaces).slots| ensures Inside(Plan(v, mode, percent, surfaces).slots[k].rect, v) {
        SlotInside(v, mode, percent, surfaces, k);
      }
    } else {
      SlotOutside(v, mode, percent, surfaces);
    }
  }

  /** One slot on a phone, at most three elsewhere, in activity order; all but the first are counted as the stack. */
  lemma SlotsInOrder(v: Viewport, mode: LayoutMode, percent: u32, surfaces: nat)
    ensures var plan := Plan(v, mode, percent, surfaces);
            && |plan.slots| <= (if v.IsPhone() then 1 else 3) && |plan.slots| <= surfaces
            && (plan.slots == [] <==> surfaces == 0)
            && (forall k | 0 <= k < |plan.slots| :: plan.slots[k].surfaceIndex == k)
            && plan.stackCount == if plan.slots == [] then 0 else |plan.slots| - 1
  {
    if !v.IsPhone() && surfaces > 0 { CountSecondary(Plan(v, mode, percent, surfaces).slots); }
  }

  lemma {:induction false} CountSecondary(slots: seq<SurfaceSlot>)
    requires slots != [] && forall k | 0 <= k < |slots| :: slots[k].kind.Secondary? <==> k > 0
    ensures SecondaryCount(slots) == |slots| - 1
  {
    if |slots| > 1 { CountSecondary(slots[..|slots| - 1]); }
  }

  lemma StackedApart(v: Viewport, percent: u32, count: nat)
    requires !v.IsPhone() && percent <= MASTER_MAX_PERCENT && 1 <= count <= 2
    ensures var width, height := DesktopWidth(v), DesktopHeight(v);
            var masterWidth := MasterWidth(width, percent);
            var stackWidth := SaturatingSub(width, masterWidth + GAP);
            && (forall i | 0 <= i < count :: Apart(Rect(INSET, TOP, masterWidth, height), StackSlot(height, masterWidth, stackWidth, count, i).rect))
            && (count == 2 ==> Apart(StackSlot(height, masterWidth, stackWidth, count, 0).rect, StackSlot(height, masterWidth, stackWidth, count, 1).rect))
  {
    hide MasterWidth, Share, SaturatingSub, DesktopWidth, DesktopHeight;
  }

  lemma DesktopApart(v: Viewport, mode: LayoutMode, percent: u32, surfaces: nat, i: nat, j: nat)
    requires !v.IsPhone() && percent <= MASTER_MAX_PERCENT && (mode.Master? || mode.Grid?)
    requires i < j < Min(surfaces, 3) && (mode.Grid? ==> j < 2)
    ensures Apart(DesktopSlot(v, mode, percent, surfaces, i).rect, DesktopSlot(v, mode, percent, surfaces, j).rect)
  {
    hide MasterWidth, Share, StackSlot, SaturatingSub, DesktopWidth, DesktopHeight;
    if mode.Master? {
      StackedApart(v, percent, Min(surfaces, 3) - 1);
      hide Apart;
    }
  }

  /** No two slots share any area, in any viewport. */
  lemma SlotsApart(v: Viewport, mode: LayoutMode, percent: u32, surfaces: nat, i: nat, j: nat)
    requires i < j < |Plan(v, mode, percent, surfaces).slots|
    ensures Apart(Plan(v, mode, percent, surfaces).slots[i].rect, Plan(v, mode, percent, surfaces).slots[j].rect)
  {
    DesktopSlotsAre(v, mode, Clamp(percent), surfaces);
    hide DesktopSlots, DesktopSlot, Apart, Clamp;
    DesktopApart(v, mode, Clamp(percent), surfaces, i, j);
  }

  /** Beside a stack, master, gap and stack fill the width between the margins exactly, also where the product saturates. */
  lemma MasterAndStackFill(v: Viewport, percent: u32, surfaces: nat, k: nat)
    requires !v.IsPhone() && surfaces >= 2 && 1 <= k < |Plan(v, Master, percent, surfaces).slots|
    ensures var slots := Plan(v, Master, percent, surfaces).slots;
            && slots[0].rect.width as int + GAP as int + slots[k].rect.width as int == v.width as int - 20
            && slots[k].rect.x as int == slots[0].rect.x as int + slots[0].rect.width as int + GAP as int
  {
    DesktopSlotsAre(v, Master, Clamp(percent), surfaces);
    hide DesktopSlots, MasterWidth, Share, SaturatingSub, DesktopWidth, DesktopHeight, Clamp;
  }

  // ---- Where everything is ----

  /** The part of the height below the bar and between the margins. */
  function Tall(v: Viewport): int {
    if v.height < 64 then 0 else v.height as int - 64
  }

  /** The percentage asked for, brought between 38 and 76. */
  function Bounded(percent: u32): int {
    if percent < 38 then 38 else if percent > 76 then 76 else percent as int
  }

  predicate Is(s: SurfaceSlot, index: nat, kind: SlotKind, x: int, y: int, width: int, height: int) {
    s.surfaceIndex == index && s.kind == kind && s.rect.x as int == x && s.rect.y as int == y
    && s.rect.width as int == width && s.rect.height as int == height
  }

  /** Below 760 pixels there is one surface above the strip, whatever was asked for. */
  lemma PhonePlan(v: Viewport, mode: LayoutMode, percent: u32, surfaces: nat)
    requires v.width < 760
    ensures var p := Plan(v, mode, percent, surfaces);
            && p.viewport == v && p.phone && p.mode == Single && p.masterPercent as int == Bounded(percent) && p.activityStripHeight == 66
            && |p.slots| == Min(surfaces, 1)
            && (surfaces > 0 ==> Is(p.slots[0], 0, Phone, 8, 48, if v.width < 16 then 0 else v.width as int - 16,
                                    if v.height < 122 then 0 else v.height as int - 122))
  {
  }

  lemma DesktopPlan(v: Viewport, mode: LayoutMode, percent: u32, surfaces: nat)
    requires v.width >= 760
    ensures var p := Plan(v, mode, percent, surfaces);
            && p.viewport == v && !p.phone && p.mode == (if surfaces == 0 then Single else mode)
            && p.masterPercent as int == Bounded(percent) && p.activityStripHeight == 0
  {
    hide DesktopSlots, SecondaryCount;
  }

  /** One surface takes the whole workspace; two in a grid take half each, the gap apart; one in a grid leaves the gap
      free all the same. */
  lemma FlatPlan(v: Viewport, mode: LayoutMode, percent: u32, surfaces: nat)
    requires v.width >= 760 && !mode.Master? && surfaces > 0
    ensures var slots, wide := Plan(v, mode, percent, surfaces).slots, v.width as int - 20;
            if mode.Grid? && surfaces == 1 then |slots| == 1 && Is(slots[0], 0, Primary, 10, 54, wide - 10, Tall(v))
            else if mode.Grid? then
              var half := (wide - 10) / 2;
              |slots| == 2 && Is(slots[0], 0, Primary, 10, 54, half, Tall(v)) && Is(slots[1], 1, Secondary, 20 + half, 54, half, Tall(v))
            else |slots| == 1 && Is(slots[0], 0, Primary, 10, 54, wide, Tall(v))
  {
    DesktopSlotsAre(v, mode, Clamp(percent), surfaces);
    hide DesktopSlots, Clamp;
  }

  /** The master takes its percentage of the width less one gap, rounded down, unless the product passes 2^32 - 1; the
      others share the rest, one above the other with a gap between. */
  lemma MasterPlan(v: Viewport, percent: u32, surfaces: nat)
    requires v.width >= 760 && surfaces > 0
    ensures var slots, wide := Plan(v, Master, percent, surfaces).slots, v.width as int - 30;
            var product := if wide * Bounded(percent) > 4294967295 then 4294967295 else wide * Bounded(percent);
            var master, half := product / 100, (if Tall(v) < 10 then 0 else Tall(v) - 10) / 2;
            && |slots| == Min(surfaces, 3) && Is(slots[0], 0, Primary, 10, 54, master, Tall(v))
            && (surfaces == 2 ==> Is(slots[1], 1, Secondary, 20 + master, 54, wide - master, Tall(v)))
            && (surfaces > 2 ==>
                  && Is(slots[1], 1, Secondary, 20 + master, 54, wide - master, half)
                  && Is(slots[2], 2, Secondary, 20 + master, 64 + half, wide - master, half))
  {
    DesktopSlotsAre(v, Master, Clamp(percent), surfaces);
    hide DesktopSlots;
    MasterIs(v, percent);
    hide MasterWidth, Clamp;
  }

  lemma MasterIs(v: Viewport, percent: u32)
    requires v.width >= 760
    ensures var wide := v.width as int - 30;
            MasterWidth(DesktopWidth(v), Clamp(percent)) as int ==
            (if wide * Bounded(percent) > 4294967295 then 4294967295 else wide * Bounded(percent)) / 100
  {
    assert SaturatingSub(DesktopWidth(v), GAP) as int == v.width as int - 30 && Clamp(percent) as int == Bounded(percent);
    hide SaturatingSub, DesktopWidth, Clamp, Bounded;
  }
}
