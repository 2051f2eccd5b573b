/** Context compaction: the greedy trimmer, what it keeps, and when it reaches its target. */
module Compaction {
  import opened Common
  import opened IndexLists

  const U64_MAX: nat := 0xFFFF_FFFF_FFFF_FFFF

  /** The length of a message's serialised form, in bytes. */
  type Sizer = Json -> nat

  /** Four bytes to a token, rounded up. */
  function EstimateTokens(size: Sizer, msg: Json): nat {
    (Min(size(msg), U64_MAX) + 3) / 4
  }

  /** The least number of tokens that hold the size, of which no more than 2^64 - 1 bytes count. */
  lemma TokensHoldBytes(size: Sizer, msg: Json)
    ensures var t, bytes := EstimateTokens(size, msg), if size(msg) < 18446744073709551615 then size(msg) else 18446744073709551615;
            bytes <= 4 * t < bytes + 4
  {
  }

  function SaturatingSub(a: nat, b: nat): nat {
    if a < b then 0 else a - b
  }

  /** The token sum as a mathematical integer. */
  function TokenSum(size: Sizer, messages: seq<Json>): nat {
    if messages == [] then 0
    else TokenSum(size, messages[..|messages| - 1]) + EstimateTokens(size, messages[|messages| - 1])
  }

  /** The estimate: a 64-bit sum that sticks at its maximum. */
  method EstimateTotalTokens(size: Sizer, messages: seq<Json>) returns (total: nat)
    ensures total == Min(TokenSum(size, messages), 18446744073709551615)
  {
    total := 0;
    for i := 0 to |messages|
      invariant total == Min(TokenSum(size, messages[..i]), U64_MAX)
    {
      assert messages[..i + 1][..i] == messages[..i];
      total := Min(total + EstimateTokens(size, messages[i]), U64_MAX);
    }
    assert messages[..|messages|] == messages;
  }

  /** `id` wins over `message_id` even when it is not a string. */
  function MessageId(msg: Json): Option<string> {
    match msg.Get("id")
    case Some(Str(s)) => Some(s)
    case Some(_) => None
    case None => msg.GetStr("message_id")
  }

  predicate IsProtected(ids: set<string>, msg: Json) {
    match MessageId(msg)
    case Some(id) => id in ids
    case None => false
  }

  /** One of the ids is the message's: its `id`, or, if it has none at all, its `message_id`. */
  predicate Guarded(ids: set<string>, msg: Json) {
    msg.Obj? &&
    var key := if "id" in msg.fields then "id" else "message_id";
    key in msg.fields && msg.fields[key].Str? && msg.fields[key].s in ids
  }

  lemma GuardedIs(ids: set<string>, msg: Json)
    ensures IsProtected(ids, msg) <==> Guarded(ids, msg)
  {
  }

  /** Messages from here on are recent. */
  function RecentStart(messages: seq<Json>, keepRecent: nat): nat {
    SaturatingSub(|messages|, keepRecent)
  }

  /** The older, unprotected ones among the first n, oldest first. */
  function RemovableUpTo(messages: seq<Json>, ids: set<string>, start: nat, n: nat): (r: seq<nat>)
    requires n <= |messages|
    ensures forall i: nat :: i in r <==> i < n && i < start && !IsProtected(ids, messages[i])
    ensures Ascending(r) && Below(r, n)
  {
    if n == 0 then []
    else RemovableUpTo(messages, ids, start, n - 1) + (if n - 1 < start && !IsProtected(ids, messages[n - 1]) then [n - 1] else [])
  }

  function Removable(messages: seq<Json>, ids: set<string>, keepRecent: nat): (r: seq<nat>)
    ensures forall i: nat :: i in r <==> i < RecentStart(messages, keepRecent) && !IsProtected(ids, messages[i])
    ensures Ascending(r) && Below(r, |messages|)
  {
    RemovableUpTo(messages, ids, RecentStart(messages, keepRecent), |messages|)
  }

  /** How many of the listed messages go before the running total is within target. */
  function Cut(size: Sizer, messages: seq<Json>, list: seq<nat>, running: nat, target: nat): (k: nat)
    requires Below(list, |messages|)
    ensures k <= |list|
    decreases |list|
  {
    if list == [] || running <= target then 0
    else 1 + Cut(size, messages, list[1..], SaturatingSub(running, EstimateTokens(size, messages[list[0]])), target)
  }

  /** The first n positions that are not gone. */
  function Positions(n: nat, gone: set<nat>): (r: seq<nat>)
    ensures Below(r, n)
  {
    if n == 0 then [] else Positions(n - 1, gone) + (if n - 1 in gone then [] else [n - 1])
  }

  lemma {:induction false} PositionsAre(n: nat, gone: set<nat>)
    ensures forall i: nat :: i in Positions(n, gone) <==> i < n && i !in gone
    ensures Ascending(Positions(n, gone))
  {
    if n > 0 { PositionsAre(n - 1, gone); }
  }

  /** The messages at the given positions. */
  function Pick(messages: seq<Json>, positions: seq<nat>): (r: seq<Json>)
    requires Below(positions, |messages|)
    ensures |r| == |positions| && forall j | 0 <= j < |r| :: r[j] == messages[positions[j]]
  {
    seq(|positions|, j requires 0 <= j < |positions| => messages[positions[j]])
  }

  function Elements(list: seq<nat>): set<nat> {
    set i | i in list
  }

  /** What compaction removes: the oldest removable messages, as many as `Cut` says. */
  function Removed(size: Sizer, messages: seq<Json>, target: nat, ids: set<string>, keepRecent: nat): (r: seq<nat>)
    ensures Ascending(r) && Below(r, |messages|)
  {
    var list := Removable(messages, ids, keepRecent);
    list[..Cut(size, messages, list, Min(TokenSum(size, messages), U64_MAX), target)]
  }

  function Compacted(size: Sizer, messages: seq<Json>, target: nat, ids: set<string>, keepRecent: nat): seq<Json> {
    Pick(messages, Positions(|messages|, Elements(Removed(size, messages, target, ids, keepRecent))))
  }

  lemma {:induction false} NothingGone(n: nat)
    ensures |Positions(n, {})| == n && forall i | 0 <= i < n :: Positions(n, {})[i] == i
  {
    if n > 0 { NothingGone(n - 1); }
  }

  lemma KeepAll(messages: seq<Json>)
    ensures Pick(messages, Positions(|messages|, {})) == messages
  {
    NothingGone(|messages|);
  }

  lemma FitsAlready(size: Sizer, messages: seq<Json>, target: nat, ids: set<string>, keepRecent: nat)
    requires Min(TokenSum(size, messages), U64_MAX) <= target || Removable(messages, ids, keepRecent) == []
    ensures Compacted(size, messages, target, ids, keepRecent) == messages
  {
    assert Elements(Removed(size, messages, target, ids, keepRecent)) == {};
    KeepAll(messages);
  }

  /** Keeps recent and protected messages and removes the oldest others until the estimate is within target. */
  method SummarizeAndTruncate(size: Sizer, messages: seq<Json>, target: nat, ids: set<string>, keepRecent: nat)
    returns (kept: seq<Json>)
    ensures kept == Compacted(size, messages, target, ids, keepRecent)
  {
    if messages == [] {
      FitsAlready(size, messages, target, ids, keepRecent);
      return [];
    }
    var current := EstimateTotalTokens(size, messages);
    hide Compacted, MessageId;
    if current <= target {
      FitsAlready(size, messages, target, ids, keepRecent);
      return messages;
    }
    var recentStart := RecentStart(messages, keepRecent);
    var removable: seq<nat> := [];
    for i := 0 to |messages|
      invariant removable == RemovableUpTo(messages, ids, recentStart, i)
    {
      if i >= recentStart { continue; }
      if !IsProtected(ids, messages[i]) { removable := removable + [i]; }
    }
    hide RemovableUpTo, Positions, Pick, Cut, Elements, TokenSum;
    var removed := TakeUntilFits(size, messages, removable, current, target);
    kept := DropRemoved(messages, removed);
    CompactedIs(size, messages, target, ids, keepRecent);
  }

  lemma CompactedIs(size: Sizer, messages: seq<Json>, target: nat, ids: set<string>, keepRecent: nat)
    ensures var list := RemovableUpTo(messages, ids, RecentStart(messages, keepRecent), |messages|);
            Compacted(size, messages, target, ids, keepRecent) ==
            Pick(messages, Positions(|messages|, Elements(list[..Cut(size, messages, list, Min(TokenSum(size, messages), U64_MAX), target)])))
  {
  }

  /** Walks the removable positions until the running total fits. */
  method TakeUntilFits(size: Sizer, messages: seq<Json>, removable: seq<nat>, current: nat, target: nat) returns (removed: set<nat>)
    requires Below(removable, |messages|)
    ensures removed == Elements(removable[..Cut(size, messages, removable, current, target)])
  {
    removed := {};
    var running: nat := current;
    ghost var all := Cut(size, messages, removable, current, target);
    var n := 0;
    while n < |removable|
      invariant n <= |removable| && removed == Elements(removable[..n])
      invariant all == n + Cut(size, messages, removable[n..], running, target)
    {
      if running <= target { break; }
      assert removable[n..][1..] == removable[n + 1..];
      assert removable[..n + 1] == removable[..n] + [removable[n]];
      running := SaturatingSub(running, EstimateTokens(size, messages[removable[n]]));
      removed := removed + {removable[n]};
      n := n + 1;
    }
  }

  method DropRemoved(messages: seq<Json>, removed: set<nat>) returns (kept: seq<Json>)
    ensures kept == Pick(messages, Positions(|messages|, removed))
  {
    kept := [];
    for i := 0 to |messages|
      invariant kept == Pick(messages, Positions(i, removed))
    {
      if i !in removed { kept := kept + [messages[i]]; }
    }
  }

  // ---- What is kept, and how much is removed ----

  /** The tokens of the listed messages. */
  function ListTokens(size: Sizer, messages: seq<Json>, list: seq<nat>): nat
    requires Below(list, |messages|)
  {
    if list == [] then 0 else EstimateTokens(size, messages[list[0]]) + ListTokens(size, messages, list[1..])
  }

  lemma {:induction false} CutIsLeast(size: Sizer, messages: seq<Json>, list: seq<nat>, running: nat, target: nat)
    requires Below(list, |messages|)
    ensures var k := Cut(size, messages, list, running, target);
            && (forall j | 0 <= j < k :: running - ListTokens(size, messages, list[..j]) > target)
            && (k < |list| ==> SaturatingSub(running, ListTokens(size, messages, list[..k])) <= target)
    decreases |list|
  {
    if list != [] && running > target {
      var t := EstimateTokens(size, messages[list[0]]);
      var rest, k := SaturatingSub(running, t), Cut(size, messages, list, running, target);
      CutIsLeast(size, messages, list[1..], rest, target);
      forall j | 0 <= j < k ensures running - ListTokens(size, messages, list[..j]) > target {
        if j > 0 { assert list[..j][1..] == list[1..][..j - 1]; }
      }
      assert list[..k][1..] == list[1..][..k - 1];
    }
  }

  lemma TokenSumSnoc(size: Sizer, messages: seq<Json>, msg: Json)
    ensures TokenSum(size, messages + [msg]) == TokenSum(size, messages) + EstimateTokens(size, msg)
  {
    assert (messages + [msg])[..|messages|] == messages;
  }

  /** One more position, kept or gone. */
  lemma NextPosition(messages: seq<Json>, n: nat, gone: set<nat>)
    requires n < |messages|
    ensures n in gone ==> Positions(n + 1, gone) == Positions(n, gone)
    ensures n !in gone ==> Pick(messages, Positions(n + 1, gone)) == Pick(messages, Positions(n, gone)) + [messages[n]]
  {
  }

  /** Tokens kept plus tokens removed are all tokens. */
  lemma {:induction false} TokensSplit(size: Sizer, messages: seq<Json>, n: nat, list: seq<nat>)
    requires n <= |messages| && Below(list, n) && Ascending(list)
    ensures TokenSum(size, Pick(messages, Positions(n, Elements(list)))) + ListTokens(size, messages, list) == TokenSum(size, messages[..n])
    decreases n
  {
    if n == 0 {
      if list != [] { NeverBelowZero(list); }
    } else {
      var m, gone := n - 1, Elements(list);
      assert messages[..n] == messages[..m] + [messages[m]];
      TokenSumSnoc(size, messages[..m], messages[m]);
      NextPosition(messages, m, gone);
      if m in list {
        var init := list[..|list| - 1];
        LastIsLargest(list, m);
        ListTokensSnoc(size, messages, init, m);
        TokensSplit(size, messages, m, init);
        SamePositions(m, Elements(init), gone);
      } else {
        assert Below(list, m);
        TokensSplit(size, messages, m, list);
        TokenSumSnoc(size, Pick(messages, Positions(m, gone)), messages[m]);
      }
      hide *;
    }
  }

  lemma NeverBelowZero(list: seq<nat>)
    requires list != []
    ensures !Below(list, 0)
  {
    assert list[0] >= 0;
  }

  lemma LastIsTop(list: seq<nat>, j: nat)
    requires Ascending(list) && j < |list|
    ensures list[j] <= list[|list| - 1]
  {
  }

  lemma LastIsLargest(list: seq<nat>, m: nat)
    requires Ascending(list) && Below(list, m + 1) && m in list
    ensures var init := list[..|list| - 1];
            && list == init + [m] && Ascending(init) && Below(init, m) && m in Elements(list)
            && forall i: nat | i < m :: i in Elements(init) <==> i in Elements(list)
  {
    var j :| 0 <= j < |list| && list[j] == m;
    LastIsTop(list, j);
    assert list[|list| - 1] < m + 1;
  }

  lemma {:induction false} ListTokensSnoc(size: Sizer, messages: seq<Json>, list: seq<nat>, i: nat)
    requires i < |messages| && Below(list, |messages|)
    ensures ListTokens(size, messages, list + [i]) == ListTokens(size, messages, list) + EstimateTokens(size, messages[i])
  {
    if list != [] {
      ListTokensSnoc(size, messages, list[1..], i);
      assert (list + [i])[1..] == list[1..] + [i];
    }
  }

  lemma {:induction false} SamePositions(n: nat, a: set<nat>, b: set<nat>)
    requires forall i: nat | i < n :: i in a <==> i in b
    ensures Positions(n, a) == Positions(n, b)
  {
    if n > 0 { SamePositions(n - 1, a, b); }
  }

  /** The tokens left once the first j removable messages are gone. */
  function TokensWithout(size: Sizer, messages: seq<Json>, ids: set<string>, keepRecent: nat, j: nat): nat
    requires j <= |Removable(messages, ids, keepRecent)|
  {
    TokenSum(size, Pick(messages, Positions(|messages|, Elements(Removable(messages, ids, keepRecent)[..j]))))
  }

  lemma TokensLeft(size: Sizer, messages: seq<Json>, ids: set<string>, keepRecent: nat, j: nat)
    requires j <= |Removable(messages, ids, keepRecent)|
    ensures TokensWithout(size, messages, ids, keepRecent, j) + ListTokens(size, messages, Removable(messages, ids, keepRecent)[..j])
            == TokenSum(size, messages)
  {
    assert messages[..|messages|] == messages;
    TokensSplit(size, messages, |messages|, Removable(messages, ids, keepRecent)[..j]);
  }

  /** The positions of the messages that may go, oldest first: those before the last `keepRecent` that no id guards. */
  ghost predicate IsRemovable(list: seq<nat>, messages: seq<Json>, ids: set<string>, keepRecent: nat) {
    Ascending(list) &&
    forall i: nat :: i in list <==> i < |messages| && i + keepRecent < |messages| && !Guarded(ids, messages[i])
  }

  lemma RemovableIs(messages: seq<Json>, ids: set<string>, keepRecent: nat)
    ensures IsRemovable(Removable(messages, ids, keepRecent), messages, ids, keepRecent)
  {
    forall msg { GuardedIs(ids, msg); }
    hide IsProtected, Guarded;
  }

  /** Which positions are kept: all but the first k removable ones. */
  ghost predicate KeepsAllBut(messages: seq<Json>, ids: set<string>, keepRecent: nat, positions: seq<nat>, k: nat) {
    && k <= |Removable(messages, ids, keepRecent)|
    && Ascending(positions) && Below(positions, |messages|)
    && (forall i: nat | i < |messages| :: i !in positions <==> i in Removable(messages, ids, keepRecent)[..k])
    && (forall i: nat | i < |messages| && (i + keepRecent >= |messages| || Guarded(ids, messages[i])) :: i in positions)
  }

  lemma KeptPositions(messages: seq<Json>, ids: set<string>, keepRecent: nat, k: nat)
    requires k <= |Removable(messages, ids, keepRecent)|
    ensures KeepsAllBut(messages, ids, keepRecent, Positions(|messages|, Elements(Removable(messages, ids, keepRecent)[..k])), k)
  {
    var list := Removable(messages, ids, keepRecent);
    PositionsAre(|messages|, Elements(list[..k]));
    assert forall i | i in list[..k] :: i in list;
    RemovableIs(messages, ids, keepRecent);
    hide Removable, Guarded, Positions;
  }

  /** Full specification. The output lists the messages at some positions, in order; a position is missing exactly
      when it is among the first k removable ones, so every recent and every protected message is kept. While the
      token sum fits 64 bits, k is the least number of removals that meets the target, or all if none does. */
  lemma CompactionIsExact(size: Sizer, messages: seq<Json>, target: nat, ids: set<string>, keepRecent: nat)
    ensures var list, k := Removable(messages, ids, keepRecent), |Removed(size, messages, target, ids, keepRecent)|;
            IsRemovable(list, messages, ids, keepRecent) &&
            exists positions | KeepsAllBut(messages, ids, keepRecent, positions, k) ::
              && Compacted(size, messages, target, ids, keepRecent) == Pick(messages, positions)
              && (TokenSum(size, messages) <= 18446744073709551615 ==>
                    && (forall j: nat | j < k :: TokensWithout(size, messages, ids, keepRecent, j) > target)
                    && (k < |list| ==> TokenSum(size, Pick(messages, positions)) <= target))
  {
    var list, gone := Removable(messages, ids, keepRecent), Removed(size, messages, target, ids, keepRecent);
    var k, sum := |gone|, TokenSum(size, messages);
    CutIsLeast(size, messages, list, Min(sum, U64_MAX), target);
    var positions := Positions(|messages|, Elements(gone));
    assert gone == list[..k];
    KeptPositions(messages, ids, keepRecent, k);
    RemovableIs(messages, ids, keepRecent);
    TokensLeft(size, messages, ids, keepRecent, k);
    assert Compacted(size, messages, target, ids, keepRecent) == Pick(messages, positions);
    hide Cut, Compacted, KeepsAllBut, IsRemovable, Positions, Pick, ListTokens, TokenSum, Removable, Elements;
    if sum <= U64_MAX {
      forall j: nat | j < k ensures TokensWithout(size, messages, ids, keepRecent, j) > target {
        TokensLeft(size, messages, ids, keepRecent, j);
      }
    }
  }

  // ---- When the target is met, and when compacting again changes nothing ----

  lemma {:induction false} OlderThenRecent(start: nat, n: nat, gone: set<nat>)
    requires start <= n && forall i | i in gone :: i < start
    ensures Positions(start, gone) <= Positions(n, gone)
    ensures |Positions(n, gone)| == |Positions(start, gone)| + (n - start)
    decreases n
  {
    if start < n { OlderThenRecent(start, n - 1, gone); }
  }

  /** A kept message is removable in the output exactly when it was in the input. */
  lemma StillRemovable(messages: seq<Json>, ids: set<string>, keepRecent: nat, gone: set<nat>)
    requires forall i | i in gone :: i in Removable(messages, ids, keepRecent)
    ensures var out := Pick(messages, Positions(|messages|, gone));
            Removable(out, ids, keepRecent) == [] <==> forall i | i in Removable(messages, ids, keepRecent) :: i in gone
  {
    var start := RecentStart(messages, keepRecent);
    assert forall i | i in gone :: i < start;
    PositionsAre(start, gone);
    OlderInOutput(messages, ids, keepRecent, gone);
    Leftover(messages, ids, start, Removable(messages, ids, keepRecent), Positions(start, gone), gone);
    hide *;
  }

  lemma OlderInOutput(messages: seq<Json>, ids: set<string>, keepRecent: nat, gone: set<nat>)
    requires forall i | i in gone :: i < RecentStart(messages, keepRecent)
    ensures var out, older := Pick(messages, Positions(|messages|, gone)), Positions(RecentStart(messages, keepRecent), gone);
            && Below(older, |messages|)
            && (Removable(out, ids, keepRecent) == [] <==> forall i | i in older :: IsProtected(ids, messages[i]))
  {
    var n, start := |messages|, RecentStart(messages, keepRecent);
    var out, older := Pick(messages, Positions(n, gone)), Positions(start, gone);
    OlderThenRecent(start, n, gone);
    assert RecentStart(out, keepRecent) == |older|;
    assert forall j | 0 <= j < |older| :: out[j] == messages[older[j]];
    OlderOnes(messages, out, ids, older, Removable(out, ids, keepRecent));
    hide *;
  }

  lemma Leftover(messages: seq<Json>, ids: set<string>, start: nat, list: seq<nat>, older: seq<nat>, gone: set<nat>)
    requires start <= |messages| && Below(older, |messages|)
    requires forall i: nat :: i in older <==> i < start && i !in gone
    requires forall i: nat :: i in list <==> i < start && !IsProtected(ids, messages[i])
    ensures (forall i | i in older :: IsProtected(ids, messages[i])) <==> (forall i | i in list :: i in gone)
  {
    hide IsProtected;
  }

  lemma OlderOnes(messages: seq<Json>, out: seq<Json>, ids: set<string>, older: seq<nat>, again: seq<nat>)
    requires Below(older, |messages|) && |older| <= |out| && Below(again, |out|)
    requires forall j | 0 <= j < |older| :: out[j] == messages[older[j]]
    requires forall j: nat :: j in again <==> j < |older| && !IsProtected(ids, out[j])
    ensures again == [] <==> forall i | i in older :: IsProtected(ids, messages[i])
  {
    hide IsProtected;
    if again != [] {
      var j := again[0];
      assert j in again && older[j] in older;
    }
    forall i | i in older && !IsProtected(ids, messages[i]) ensures again != [] {
      var j :| 0 <= j < |older| && older[j] == i;
      assert j in again;
    }
  }

  /** A proper prefix of an ascending list lacks some of its elements. */
  lemma PrefixCovers(list: seq<nat>, k: nat)
    requires Ascending(list) && k <= |list|
    ensures (forall i | i in list :: i in Elements(list[..k])) <==> k == |list|
  {
    if k < |list| {
      assert list[k] in list && list[k] !in list[..k];
    } else {
      assert list[..k] == list;
    }
  }

  /** Nothing removable is left exactly when all of it was removed. */
  lemma NothingLeftIff(size: Sizer, messages: seq<Json>, target: nat, ids: set<string>, keepRecent: nat)
    ensures Removable(Compacted(size, messages, target, ids, keepRecent), ids, keepRecent) == []
            <==> |Removed(size, messages, target, ids, keepRecent)| == |Removable(messages, ids, keepRecent)|
  {
    var list, gone := Removable(messages, ids, keepRecent), Removed(size, messages, target, ids, keepRecent);
    assert gone == list[..|gone|] && forall i | i in gone :: i in list;
    hide Removed, Removable, Positions, Pick;
    PrefixCovers(list, |gone|);
    StillRemovable(messages, ids, keepRecent, Elements(gone));
  }

  /** The 64-bit cap does no harm: whenever removing the j oldest, though not all, brings the capped total within
      target, it brings the true total within target too. */
  ghost predicate CapIsHarmless(size: Sizer, messages: seq<Json>, target: nat, ids: set<string>, keepRecent: nat) {
    var list, sum := Removable(messages, ids, keepRecent), TokenSum(size, messages);
    forall j: nat | j < |list| && Min(sum, 18446744073709551615) <= target + ListTokens(size, messages, list[..j]) ::
      sum <= target + ListTokens(size, messages, list[..j])
  }

  lemma {:induction false} ListTokensGrow(size: Sizer, messages: seq<Json>, list: seq<nat>, j: nat, k: nat)
    requires Below(list, |messages|) && j <= k <= |list|
    ensures ListTokens(size, messages, list[..j]) <= ListTokens(size, messages, list[..k])
    decreases k
  {
    if j < k {
      ListTokensGrow(size, messages, list, j, k - 1);
      assert list[..k] == list[..k - 1] + [list[k - 1]];
      ListTokensSnoc(size, messages, list[..k - 1], list[k - 1]);
    }
  }

  /** The output fits the target or nothing removable is left in it, exactly when the cap is harmless. */
  lemma FitsIffHarmless(size: Sizer, messages: seq<Json>, target: nat, ids: set<string>, keepRecent: nat)
    ensures var out := Compacted(size, messages, target, ids, keepRecent);
            TokenSum(size, out) <= target || Removable(out, ids, keepRecent) == [] <==>
            CapIsHarmless(size, messages, target, ids, keepRecent)
  {
    var list, k := Removable(messages, ids, keepRecent), |Removed(size, messages, target, ids, keepRecent)|;
    var sum := TokenSum(size, messages);
    NothingLeftIff(size, messages, target, ids, keepRecent);
    CutIsLeast(size, messages, list, Min(sum, U64_MAX), target);
    TokensLeft(size, messages, ids, keepRecent, k);
    assert TokenSum(size, Compacted(size, messages, target, ids, keepRecent)) == sum - ListTokens(size, messages, list[..k]);
    hide Compacted, TokenSum, ListTokens, Cut, Removable, Removed;
    forall j: nat | j < |list| ensures j >= k ==> ListTokens(size, messages, list[..k]) <= ListTokens(size, messages, list[..j]) {
      if j >= k { ListTokensGrow(size, messages, list, k, j); }
    }
  }

  lemma {:induction false} GoneShrinks(n: nat, gone: set<nat>)
    ensures |Positions(n, gone)| <= n
    ensures (exists i: nat | i < n :: i in gone) ==> |Positions(n, gone)| < n
  {
    if n > 0 { GoneShrinks(n - 1, gone); }
  }

  /** Compacting the output again returns it unchanged exactly when the cap is harmless or the target is out of its reach. */
  lemma IdempotentIff(size: Sizer, messages: seq<Json>, target: nat, ids: set<string>, keepRecent: nat)
    ensures var out := Compacted(size, messages, target, ids, keepRecent);
            Compacted(size, out, target, ids, keepRecent) == out <==>
            CapIsHarmless(size, messages, target, ids, keepRecent) || target >= 18446744073709551615
  {
    FitsIffHarmless(size, messages, target, ids, keepRecent);
    hide CapIsHarmless;
    var out := Compacted(size, messages, target, ids, keepRecent);
    if Min(TokenSum(size, out), U64_MAX) <= target || Removable(out, ids, keepRecent) == [] {
      FitsAlready(size, out, target, ids, keepRecent);
    } else {
      SomethingGoes(size, out, target, ids, keepRecent);
    }
  }

  lemma SomethingGoes(size: Sizer, messages: seq<Json>, target: nat, ids: set<string>, keepRecent: nat)
    requires Min(TokenSum(size, messages), U64_MAX) > target && Removable(messages, ids, keepRecent) != []
    ensures |Compacted(size, messages, target, ids, keepRecent)| < |messages|
  {
    var gone := Removed(size, messages, target, ids, keepRecent);
    assert gone[0] in Elements(gone) && gone[0] < |messages|;
    GoneShrinks(|messages|, Elements(gone));
  }

  /** With a token sum below 2^64 the output fits or is spent, and compacting again changes nothing. */
  lemma WithoutSaturation(size: Sizer, messages: seq<Json>, target: nat, ids: set<string>, keepRecent: nat)
    requires TokenSum(size, messages) <= 18446744073709551615
    ensures var out := Compacted(size, messages, target, ids, keepRecent);
            && (TokenSum(size, out) <= target || Removable(out, ids, keepRecent) == [])
            && Compacted(size, out, target, ids, keepRecent) == out
  {
    FitsIffHarmless(size, messages, target, ids, keepRecent);
    IdempotentIff(size, messages, target, ids, keepRecent);
    hide Compacted, Removable, ListTokens, TokenSum;
  }

  lemma {:induction false} UniformTokens(size: Sizer, messages: seq<Json>, list: seq<nat>, t: nat)
    requires Below(list, |messages|) && forall m | m in messages :: EstimateTokens(size, m) == t
    ensures TokenSum(size, messages) == |messages| * t
    ensures ListTokens(size, messages, list) == |list| * t
    decreases |list|
  {
    hide EstimateTokens;
    UniformSum(size, messages, t);
    if list != [] {
      assert messages[list[0]] in messages;
      UniformTokens(size, messages, list[1..], t);
    }
  }

  lemma {:induction false} UniformSum(size: Sizer, messages: seq<Json>, t: nat)
    requires forall m | m in messages :: EstimateTokens(size, m) == t
    ensures TokenSum(size, messages) == |messages| * t
  {
    hide EstimateTokens;
    if messages != [] { UniformSum(size, messages[..|messages| - 1], t); }
  }

  lemma {:induction false} AllRemovable(messages: seq<Json>, start: nat, n: nat)
    requires n <= start && n <= |messages|
    ensures |RemovableUpTo(messages, {}, start, n)| == n
  {
    if n > 0 { AllRemovable(messages, start, n - 1); }
  }

  lemma CapHarms(size: Sizer, messages: seq<Json>, target: nat, ids: set<string>, keepRecent: nat, j: nat)
    requires var list, sum := Removable(messages, ids, keepRecent), TokenSum(size, messages);
             && j < |list|
             && Min(sum, 18446744073709551615) <= target + ListTokens(size, messages, list[..j]) < sum
    ensures !CapIsHarmless(size, messages, target, ids, keepRecent)
  {
    hide Removable, TokenSum, ListTokens, Min;
  }

  lemma FiveLargeMessages(size: Sizer, messages: seq<Json>)
    requires |messages| == 5 && forall m | m in messages :: EstimateTokens(size, m) == 0x4000_0000_0000_0000
    ensures !CapIsHarmless(size, messages, 0, {}, 0)
  {
    hide EstimateTokens, CapIsHarmless;
    AllRemovable(messages, 5, 5);
    var list := Removable(messages, {}, 0);
    assert |list| == 5;
    hide Removable, RemovableUpTo;
    UniformTokens(size, messages, list[..4], 0x4000_0000_0000_0000);
    hide TokenSum, ListTokens;
    CapHarms(size, messages, 0, {}, 0, 4);
  }

  lemma StopsShort(size: Sizer, messages: seq<Json>)
    requires |messages| == 5 && forall m | m in messages :: EstimateTokens(size, m) == 0x4000_0000_0000_0000
    ensures var out := Compacted(size, messages, 0, {}, 0);
            && !(TokenSum(size, out) <= 0 || Removable(out, {}, 0) == [])
            && Compacted(size, out, 0, {}, 0) != out
  {
    FiveLargeMessages(size, messages);
    FitsIffHarmless(size, messages, 0, {}, 0);
    IdempotentIff(size, messages, 0, {}, 0);
    hide *;
  }

  /** With a larger sum it can stop short: of five messages of 2^62 tokens each, and target 0, one is left that a
      second compaction would remove. */
  lemma SaturatedSumStopsShort()
    ensures var size, messages := (m: Json) => 0x1_0000_0000_0000_0000, [Null, Null, Null, Null, Null];
            var out := Compacted(size, messages, 0, {}, 0);
            && !(TokenSum(size, out) <= 0 || Removable(out, {}, 0) == [])
            && Compacted(size, out, 0, {}, 0) != out
  {
    var size, messages := (m: Json) => 0x1_0000_0000_0000_0000, [Null, Null, Null, Null, Null];
    assert forall m | m in messages :: EstimateTokens(size, m) == 0x4000_0000_0000_0000;
    hide *;
    StopsShort(size, messages);
  }
}
