/** Planning a channel publication from the assets already uploaded. */
module ChannelPublication {
  import opened Common
  import opened Decimal
  import opened Sorting

  const MAX_GENERATION := 999_999_999_999_999_999

  predicate IsChannel(channel: string) {
    channel == "stable" || channel == "dev" || channel == "nightly"
  }

  datatype PlanError =
    | BadChannel
    | BadGeneration
    | NotAnArray
    | NotAnObject
    | BadId
    | BadName
    | BadState(name: string)
    | BadSize(name: string)
    | EmptyUpload(name: string)
    | DuplicateName(name: string)
    | HistoryWithoutTransaction(history: nat)
    | TransactionNotFloor
    | NotAboveFloor(floor: nat)

  // ---- Generations in asset names ----

  /** A non-zero digit and up to 17 more. */
  predicate IsGeneration(digits: string) {
    1 <= |digits| <= 18 && AllDigits(digits) && digits[0] != '0'
  }

  /** The generation of a name made of the prefix, a generation and the suffix. */
  function MatchGeneration(prefix: string, suffix: string, name: string): Option<nat> {
    if |name| < |prefix| + |suffix| || !StartsWith(name, prefix) || name[|name| - |suffix|..] != suffix then None
    else
      var digits := name[|prefix|..|name| - |suffix|];
      if IsGeneration(digits) then Some(Value(digits)) else None
  }

  function Prefix(channel: string): string {
    "channel-" + channel + "-"
  }

  const TRANSACTION_SUFFIX := ".transaction.json"
  const HISTORY_SUFFIX := ".toml"
  const BUNDLE_SUFFIX := ".toml.sigstore.json"

  function TransactionName(channel: string, generation: nat): string {
    Prefix(channel) + Print(generation) + TRANSACTION_SUFFIX
  }

  function TransactionOf(channel: string, name: string): Option<nat> {
    MatchGeneration(Prefix(channel), TRANSACTION_SUFFIX, name)
  }

  function HistoryOf(channel: string, name: string): Option<nat> {
    var plain := MatchGeneration(Prefix(channel), HISTORY_SUFFIX, name);
    if plain.Some? then plain else MatchGeneration(Prefix(channel), BUNDLE_SUFFIX, name)
  }

  lemma PowerOfEighteen()
    ensures Power10(18) == MAX_GENERATION + 1
  {
    assert Power10(6) == 1_000_000;
    assert Power10(12) == 1_000_000_000_000 by { assert Power10(9) == 1_000 * Power10(6); assert Power10(12) == 1_000 * Power10(9); }
    assert Power10(15) == 1_000 * Power10(12);
    assert Power10(18) == 1_000 * Power10(15);
  }

  /** The numerals the pattern accepts are those of 1 to the largest generation, each read back as printed. */
  lemma GenerationsReadBack(prefix: string, suffix: string, name: string, n: nat)
    ensures MatchGeneration(prefix, suffix, name) == Some(n) <==> 1 <= n <= MAX_GENERATION && name == prefix + Print(n) + suffix
  {
    PowerOfEighteen();
    if MatchGeneration(prefix, suffix, name) == Some(n) {
      var digits := name[|prefix|..|name| - |suffix|];
      assert name == prefix + digits + suffix;
      PrintOfValue(digits);
      PrintLength(n, 18);
    }
    if 1 <= n <= MAX_GENERATION && name == prefix + Print(n) + suffix {
      assert name[|prefix|..|name| - |suffix|] == Print(n);
      ValueOfPrint(n);
      PrintLength(n, 18);
    }
  }

  /** The name of a channel's transaction n. */
  predicate NamesTransaction(channel: string, name: string, n: nat) {
    1 <= n <= 999999999999999999 && name == "channel-" + channel + "-" + Print(n) + ".transaction.json"
  }

  /** The name of a channel's history entry n, or of its bundle. */
  predicate NamesHistory(channel: string, name: string, n: nat) {
    1 <= n <= 999999999999999999 &&
    (name == "channel-" + channel + "-" + Print(n) + ".toml" || name == "channel-" + channel + "-" + Print(n) + ".toml.sigstore.json")
  }

  lemma NamesExactly(channel: string, name: string, n: nat)
    ensures TransactionOf(channel, name) == Some(n) <==> NamesTransaction(channel, name, n)
    ensures HistoryOf(channel, name) == Some(n) <==> NamesHistory(channel, name, n)
  {
    GenerationsReadBack("channel-" + channel + "-", ".transaction.json", name, n);
    GenerationsReadBack("channel-" + channel + "-", ".toml", name, n);
    GenerationsReadBack("channel-" + channel + "-", ".toml.sigstore.json", name, n);
    var plain, bundle := MatchGeneration(Prefix(channel), HISTORY_SUFFIX, name), MatchGeneration(Prefix(channel), BUNDLE_SUFFIX, name);
    NotBothSuffixes(name);
    assert plain.Some? ==> |name| >= 5 && name[|name| - 5..] == ".toml";
    assert bundle.Some? ==> |name| >= 19 && name[|name| - 19..] == ".toml.sigstore.json";
    assert plain.None? || bundle.None?;
    hide MatchGeneration, Print;
  }

  lemma AllNames(channel: string, names: seq<string>)
    ensures forall name, n: nat | name in names :: NamesTransaction(channel, name, n) <==> TransactionOf(channel, name) == Some(n)
    ensures forall name, n: nat | name in names :: NamesHistory(channel, name, n) <==> HistoryOf(channel, name) == Some(n)
  {
    forall name, n: nat | name in names
      ensures NamesTransaction(channel, name, n) <==> TransactionOf(channel, name) == Some(n)
      ensures NamesHistory(channel, name, n) <==> HistoryOf(channel, name) == Some(n)
    {
      NamesExactly(channel, name, n);
    }
  }

  lemma NotBothSuffixes(name: string)
    ensures !(|name| >= 5 && |name| >= 19 && name[|name| - 5..] == ".toml" && name[|name| - 19..] == ".toml.sigstore.json")
  {
    assert ".toml"[4] == 'l' && ".toml.sigstore.json"[18] == 'n';
  }

  // ---- Assets ----

  function FlattenItem(item: Json): seq<Json> {
    match item
    case Arr(items) => items
    case _ => [item]
  }

  function Flatten(items: seq<Json>): seq<Json> {
    if items == [] then [] else Flatten(items[..|items| - 1]) + FlattenItem(items[|items| - 1])
  }

  method FlattenAssets(value: Json) returns (r: Result<seq<Json>, PlanError>)
    ensures r == Assets(value)
  {
    if !value.Arr? { return Err(NotAnArray); }
    var flattened: seq<Json> := [];
    for i := 0 to |value.items|
      invariant flattened == Flatten(value.items[..i])
    {
      assert value.items[..i + 1][..i] == value.items[..i];
      if value.items[i].Arr? {
        flattened := flattened + value.items[i].items;
      } else {
        flattened := flattened + [value.items[i]];
      }
    }
    assert value.items[..|value.items|] == value.items;
    if exists item | item in flattened :: !item.Obj? { return Err(NotAnObject); }
    return Ok(flattened);
  }

  /** Nested lists are opened one level, in place. */
  lemma {:induction false} FlattenConcat(a: seq<Json>, b: seq<Json>)
    ensures Flatten(a + b) == Flatten(a) + Flatten(b)
    decreases |b|
  {
    if b == [] {
      assert a + b == a;
    } else {
      var init, last := b[..|b| - 1], b[|b| - 1];
      assert a + b == a + init + [last] && b == init + [last];
      FlattenSnoc(a + init, last);
      FlattenSnoc(init, last);
      hide Flatten, FlattenItem;
      FlattenConcat(a, init);
      Assoc(Flatten(a), Flatten(init), FlattenItem(last));
    }
  }

  lemma FlattenSnoc(items: seq<Json>, item: Json)
    ensures Flatten(items + [item]) == Flatten(items) + FlattenItem(item)
  {
    assert (items + [item])[..|items|] == items;
  }

  lemma Assoc<T>(a: seq<T>, b: seq<T>, c: seq<T>)
    ensures a + b + c == a + (b + c)
  {
  }

  lemma FlattenOne(items: seq<Json>, item: Json)
    ensures Flatten([Arr(items)]) == items
    ensures !item.Arr? ==> Flatten([item]) == [item]
  {
    assert Flatten([Arr(items)][..0]) == [] && Flatten([item][..0]) == [];
  }

  function Assets(value: Json): Result<seq<Json>, PlanError> {
    if !value.Arr? then Err(NotAnArray)
    else if exists item | item in Flatten(value.items) :: !item.Obj? then Err(NotAnObject)
    else Ok(Flatten(value.items))
  }

  /** The integer under a key, if it is at least `least`. */
  function IntAtLeast(asset: Json, key: string, least: int): Option<int> {
    match asset.Get(key)
    case Some(Num(n)) => if n >= least then Some(n) else None
    case _ => None
  }

  /** The non-empty string under a key. */
  function NonEmpty(asset: Json, key: string): Option<string> {
    match asset.GetStr(key)
    case Some(s) => if s != "" then Some(s) else None
    case None => None
  }

  datatype Asset = Uploaded(name: string) | Leftover(id: int)

  /** What one asset is, on its own. */
  function Classify(asset: Json): Result<Asset, PlanError> {
    var id, name, state, size := IntAtLeast(asset, "id", 1), NonEmpty(asset, "name"), NonEmpty(asset, "state"), IntAtLeast(asset, "size", 0);
    if id.None? then Err(BadId)
    else if name.None? then Err(BadName)
    else if state.None? then Err(BadState(name.value))
    else if size.None? then Err(BadSize(name.value))
    else if state.value != "uploaded" then Ok(Leftover(id.value))
    else if size.value == 0 then Err(EmptyUpload(name.value))
    else Ok(Uploaded(name.value))
  }

  /** The asset says `value` under `key`. */
  predicate Says(asset: Json, key: string, value: Json) {
    asset.Obj? && key in asset.fields && asset.fields[key] == value
  }

  /** An upload: a positive id, a name, the state "uploaded", and a positive size. */
  ghost predicate IsUpload(asset: Json, name: string) {
    && (exists id :: id > 0 && Says(asset, "id", Num(id))) && name != "" && Says(asset, "name", Str(name))
    && Says(asset, "state", Str("uploaded")) && exists size :: size > 0 && Says(asset, "size", Num(size))
  }

  /** A leftover: the same, but in another state, and of any size. */
  ghost predicate IsLeftover(asset: Json, id: int) {
    && id > 0 && Says(asset, "id", Num(id)) && (exists name :: name != "" && Says(asset, "name", Str(name)))
    && (exists state :: state != "" && state != "uploaded" && Says(asset, "state", Str(state)))
    && exists size :: size >= 0 && Says(asset, "size", Num(size))
  }

  lemma FieldsSay(asset: Json, key: string, least: int)
    ensures forall n :: IntAtLeast(asset, key, least) == Some(n) <==> n >= least && Says(asset, key, Num(n))
    ensures forall s :: NonEmpty(asset, key) == Some(s) <==> s != "" && Says(asset, key, Str(s))
  {
  }

  /** An asset is taken for what its fields say. */
  lemma ClassifyExactly(asset: Json)
    ensures forall name :: Classify(asset) == Ok(Uploaded(name)) <==> IsUpload(asset, name)
    ensures forall id :: Classify(asset) == Ok(Leftover(id)) <==> IsLeftover(asset, id)
  {
    FieldsSay(asset, "id", 1);
    FieldsSay(asset, "name", 0);
    FieldsSay(asset, "state", 0);
    FieldsSay(asset, "size", 0);
    hide IntAtLeast, NonEmpty;
    var id, name, state, size := IntAtLeast(asset, "id", 1), NonEmpty(asset, "name"), NonEmpty(asset, "state"), IntAtLeast(asset, "size", 0);
    assert id.Some? ==> Says(asset, "id", Num(id.value));
    assert name.Some? ==> Says(asset, "name", Str(name.value));
    assert state.Some? ==> Says(asset, "state", Str(state.value));
    assert size.Some? ==> Says(asset, "size", Num(size.value));
  }

  datatype Inventory = Inventory(uploaded: seq<string>, cleanup: seq<int>)

  function AddAsset(inv: Inventory, asset: Json): Result<Inventory, PlanError> {
    match Classify(asset)
    case Err(e) => Err(e)
    case Ok(Leftover(id)) => Ok(inv.(cleanup := inv.cleanup + [id]))
    case Ok(Uploaded(name)) => if name in inv.uploaded then Err(DuplicateName(name)) else Ok(inv.(uploaded := inv.uploaded + [name]))
  }

  function Collected(assets: seq<Json>): Result<Inventory, PlanError> {
    if assets == [] then Ok(Inventory([], []))
    else match Collected(assets[..|assets| - 1])
      case Err(e) => Err(e)
      case Ok(inv) => AddAsset(inv, assets[|assets| - 1])
  }

  method Collect(assets: seq<Json>) returns (r: Result<Inventory, PlanError>)
    ensures r == Collected(assets)
  {
    var uploaded: seq<string>, cleanup: seq<int> := [], [];
    for i := 0 to |assets|
      invariant Collected(assets[..i]) == Ok(Inventory(uploaded, cleanup))
    {
      assert assets[..i + 1][..i] == assets[..i];
      match Classify(assets[i])
      case Err(e) =>
        FirstError(assets, i + 1);
        return Err(e);
      case Ok(Leftover(id)) =>
        cleanup := cleanup + [id];
        continue;
      case Ok(Uploaded(name)) =>
        if name in uploaded {
          FirstError(assets, i + 1);
          return Err(DuplicateName(name));
        }
        uploaded := uploaded + [name];
    }
    assert assets[..|assets|] == assets;
    return Ok(Inventory(uploaded, cleanup));
  }

  lemma {:induction false} FirstError(assets: seq<Json>, n: nat)
    requires n <= |assets| && Collected(assets[..n]).Err?
    ensures Collected(assets) == Collected(assets[..n])
    decreases |assets|
  {
    if n == |assets| {
      assert assets[..n] == assets;
    } else {
      assert assets[..|assets| - 1][..n] == assets[..n];
      FirstError(assets[..|assets| - 1], n);
    }
  }

  /** The assets of one kind, in order. */
  function UploadedNames(assets: seq<Json>): seq<string> {
    if assets == [] then []
    else UploadedNames(assets[..|assets| - 1]) + match Classify(assets[|assets| - 1]) { case Ok(Uploaded(name)) => [name] case _ => [] }
  }

  function LeftoverIds(assets: seq<Json>): seq<int> {
    if assets == [] then []
    else LeftoverIds(assets[..|assets| - 1]) + match Classify(assets[|assets| - 1]) { case Ok(Leftover(id)) => [id] case _ => [] }
  }

  /** Collection succeeds exactly when every asset is well formed and no two uploads share a name, and then each asset
      is counted once, as an upload or as a leftover. */
  lemma {:induction false} EveryAssetCountedOnce(assets: seq<Json>)
    ensures Collected(assets).Ok? <==>
            && (forall i | 0 <= i < |assets| :: Classify(assets[i]).Ok?)
            && AllDifferent(UploadedNames(assets))
    ensures Collected(assets).Ok? ==> Collected(assets).value == Inventory(UploadedNames(assets), LeftoverIds(assets))
    ensures Collected(assets).Ok? ==> |Collected(assets).value.uploaded| + |Collected(assets).value.cleanup| == |assets|
    decreases |assets|
  {
    if assets != [] {
      hide Classify;
      var init, last := assets[..|assets| - 1], assets[|assets| - 1];
      EveryAssetCountedOnce(init);
      assert assets == init + [last];
      match Classify(last)
      case Ok(Uploaded(name)) => DifferentSnoc(UploadedNames(init), name);
      case _ => assert UploadedNames(assets) == UploadedNames(init);
    }
  }

  /** Uploads and leftovers are told apart by their fields. */
  lemma {:induction false} KindsOfAssets(assets: seq<Json>)
    ensures forall name :: name in UploadedNames(assets) <==> exists asset :: asset in assets && IsUpload(asset, name)
    ensures forall id :: id in LeftoverIds(assets) <==> exists asset :: asset in assets && IsLeftover(asset, id)
  {
    if assets != [] {
      var init, last := assets[..|assets| - 1], assets[|assets| - 1];
      ClassifyExactly(last);
      KindsOfAssets(init);
      hide Classify, IsUpload, IsLeftover;
      assert assets == init + [last];
    }
  }

  predicate AllDifferent(names: seq<string>) {
    forall i, j | 0 <= i < j < |names| :: names[i] != names[j]
  }

  lemma DifferentSnoc(names: seq<string>, name: string)
    ensures AllDifferent(names + [name]) <==> AllDifferent(names) && name !in names
  {
    var all := names + [name];
    if AllDifferent(all) {
      forall i, j | 0 <= i < j < |names| ensures names[i] != names[j] { assert all[i] != all[j]; }
      forall i | 0 <= i < |names| ensures names[i] != name { assert all[i] != all[|names|]; }
    }
  }

  // ---- The plan ----

  function Max(a: nat, b: nat): nat {
    if a < b then b else a
  }

  /** The largest generation the pattern reads in these names; 0 if none. */
  function Floor(generation: string -> Option<nat>, names: seq<string>): (r: nat)
  {
    if names == [] then 0
    else Max(Floor(generation, names[..|names| - 1]), generation(names[|names| - 1]).GetOr(0))
  }

  lemma {:induction false} FloorIsMax(generation: string -> Option<nat>, names: seq<string>)
    ensures forall name | name in names && generation(name).Some? :: generation(name).value <= Floor(generation, names)
    ensures Floor(generation, names) == 0 || exists name | name in names :: generation(name) == Some(Floor(generation, names))
  {
    if names != [] {
      var init, last := names[..|names| - 1], names[|names| - 1];
      FloorIsMax(generation, init);
      assert last in names && forall name | name in names :: name in init || name == last;
      assert forall name | name in init :: name in names;
    }
  }

  function Transactions(channel: string): string -> Option<nat> {
    name => TransactionOf(channel, name)
  }

  function Histories(channel: string): string -> Option<nat> {
    name => HistoryOf(channel, name)
  }

  datatype Plan = Plan(channel: string, generation: nat, uploadedNames: seq<string>, cleanupIds: seq<int>, transactionFloor: nat, historyFloor: nat,
                       requestedPresent: bool, pointerPresent: bool, bundlePresent: bool)

  /** Why a generation is refused on top of these uploads. */
  function Refusal(channel: string, generation: nat, uploaded: seq<string>): Option<PlanError> {
    var floor, history := Floor(Transactions(channel), uploaded), Floor(Histories(channel), uploaded);
    if history > floor then Some(HistoryWithoutTransaction(history))
    else if TransactionName(channel, generation) in uploaded then if generation == floor then None else Some(TransactionNotFloor)
    else if floor != 0 && generation <= floor then Some(NotAboveFloor(floor))
    else None
  }

  function PlanFor(channel: string, generation: nat, inv: Inventory): Plan {
    Plan(channel, generation, Sort(LexLe, inv.uploaded), Sort(IntLe, inv.cleanup), Floor(Transactions(channel), inv.uploaded), Floor(Histories(channel), inv.uploaded),
         TransactionName(channel, generation) in inv.uploaded,
         "channel.toml" in inv.uploaded, "channel.toml.sigstore.json" in inv.uploaded)
  }

  function Planned(channel: string, generation: int, value: Json): Result<Plan, PlanError> {
    if !IsChannel(channel) then Err(BadChannel)
    else if !(0 < generation <= MAX_GENERATION) then Err(BadGeneration)
    else match Assets(value)
      case Err(e) => Err(e)
      case Ok(assets) =>
        match Collected(assets)
        case Err(e) => Err(e)
        case Ok(inv) =>
          match Refusal(channel, generation, inv.uploaded)
          case Some(e) => Err(e)
          case None => Ok(PlanFor(channel, generation, inv))
  }

  method PublicationPlan(channel: string, generation: int, value: Json) returns (r: Result<Plan, PlanError>)
    ensures r == Planned(channel, generation, value)
  {
    hide IsChannel, Floor, Collected, Assets, TransactionName;
    if !IsChannel(channel) { return Err(BadChannel); }
    if !(0 < generation <= MAX_GENERATION) { return Err(BadGeneration); }
    var assets := FlattenAssets(value);
    if assets.Err? { return Err(assets.error); }
    var collected := Collect(assets.value);
    if collected.Err? { return Err(collected.error); }
    var uploaded := collected.value.uploaded;
    var transactionFloor := Floor(Transactions(channel), uploaded);
    var historyFloor := Floor(Histories(channel), uploaded);
    if historyFloor > transactionFloor { return Err(HistoryWithoutTransaction(historyFloor)); }
    var requestedPresent := TransactionName(channel, generation) in uploaded;
    if requestedPresent {
      if generation != transactionFloor { return Err(TransactionNotFloor); }
    } else if transactionFloor != 0 {
      if generation <= transactionFloor { return Err(NotAboveFloor(transactionFloor)); }
    }
    return Ok(Plan(channel, generation, Sort(LexLe, uploaded), Sort(IntLe, collected.value.cleanup), transactionFloor, historyFloor, requestedPresent,
                   "channel.toml" in uploaded, "channel.toml.sigstore.json" in uploaded));
  }

  /** An accepted plan lists every asset once: the names of the uploads and the ids of the leftovers, each in order. */
  lemma PlanListsEveryAsset(channel: string, generation: int, value: Json)
    requires Planned(channel, generation, value).Ok?
    ensures var p, assets := Planned(channel, generation, value).value, Assets(value).value;
            && Sorted(LexLe, p.uploadedNames) && multiset(p.uploadedNames) == multiset(UploadedNames(assets))
            && Sorted(IntLe, p.cleanupIds) && multiset(p.cleanupIds) == multiset(LeftoverIds(assets))
            && |p.uploadedNames| + |p.cleanupIds| == |assets|
  {
    hide IsChannel, Floor, Refusal, Sort, Collected, UploadedNames, LeftoverIds, Sorted, LexLe, Flatten;
    var assets := Assets(value).value;
    EveryAssetCountedOnce(assets);
    Orders();
    SortSorts(LexLe, UploadedNames(assets));
    SortSorts(IntLe, LeftoverIds(assets));
  }

  // ---- Monotone and resumable ----

  lemma OwnTransaction(channel: string, generation: nat)
    requires 1 <= generation <= MAX_GENERATION
    ensures TransactionOf(channel, TransactionName(channel, generation)) == Some(generation)
  {
    GenerationsReadBack(Prefix(channel), TRANSACTION_SUFFIX, TransactionName(channel, generation), generation);
  }

  /** No history generation is above every transaction. */
  ghost predicate HistoryIsBacked(channel: string, uploaded: seq<string>) {
    forall h, n: nat | h in uploaded && NamesHistory(channel, h, n) ::
      exists t, m: nat :: t in uploaded && NamesTransaction(channel, t, m) && n <= m
  }

  /** Above every uploaded transaction, unless it is the largest of them. */
  ghost predicate IsNextOrOwn(channel: string, generation: nat, uploaded: seq<string>) {
    forall t, m: nat | t in uploaded && NamesTransaction(channel, t, m) :: m <= generation
  }

  lemma BackedIffFloors(channel: string, uploaded: seq<string>)
    ensures HistoryIsBacked(channel, uploaded) <==> Floor(Histories(channel), uploaded) <= Floor(Transactions(channel), uploaded)
  {
    FloorIsMax(Histories(channel), uploaded);
    FloorIsMax(Transactions(channel), uploaded);
    AllNames(channel, uploaded);
    var floor, history := Floor(Transactions(channel), uploaded), Floor(Histories(channel), uploaded);
    assert forall name, n: nat | name in uploaded && NamesHistory(channel, name, n) :: 1 <= n <= history;
    assert forall name, n: nat | name in uploaded && NamesTransaction(channel, name, n) :: 1 <= n <= floor;
    assert floor != 0 ==> exists name :: name in uploaded && NamesTransaction(channel, name, floor);
    assert history != 0 ==> exists name :: name in uploaded && NamesHistory(channel, name, history);
    hide Floor, HistoryOf, TransactionOf, NamesHistory, NamesTransaction;
  }

  /** A generation is accepted exactly when no history generation is above every transaction, and the generation itself
      is above every transaction, or the largest of them with its own transaction present. */
  lemma AcceptedExactly(channel: string, generation: nat, uploaded: seq<string>)
    requires 1 <= generation <= MAX_GENERATION
    ensures Refusal(channel, generation, uploaded) == None <==>
            HistoryIsBacked(channel, uploaded) && IsNextOrOwn(channel, generation, uploaded)
  {
    BackedIffFloors(channel, uploaded);
    FloorIsTransaction(channel, generation, uploaded);
    hide Floor, HistoryIsBacked, IsNextOrOwn, TransactionName;
  }

  /** The floor is the largest transaction there is. */
  lemma FloorIsTransaction(channel: string, generation: nat, uploaded: seq<string>)
    requires 1 <= generation <= MAX_GENERATION
    ensures var floor := Floor(Transactions(channel), uploaded);
            && (floor != 0 ==> TransactionName(channel, floor) in uploaded)
            && (TransactionName(channel, generation) in uploaded ==> generation <= floor)
            && (IsNextOrOwn(channel, generation, uploaded) <==> floor <= generation)
  {
    FloorIsMax(Transactions(channel), uploaded);
    OwnTransaction(channel, generation);
    AllNames(channel, uploaded);
    var floor := Floor(Transactions(channel), uploaded);
    assert TransactionName(channel, generation) in uploaded ==> Transactions(channel)(TransactionName(channel, generation)) == Some(generation);
    assert forall t, m: nat | t in uploaded && NamesTransaction(channel, t, m) :: m <= floor;
    if floor != 0 {
      var t :| t in uploaded && Transactions(channel)(t) == Some(floor);
      assert NamesTransaction(channel, t, floor) && t == TransactionName(channel, floor);
    }
    hide Floor, TransactionOf, NamesTransaction, TransactionName;
  }

  /** An asset that is neither an upload nor a leftover spoils the response. */
  ghost predicate WellFormed(asset: Json) {
    (exists name :: IsUpload(asset, name)) || exists id :: IsLeftover(asset, id)
  }

  lemma WellFormedIs(asset: Json)
    ensures Classify(asset).Ok? <==> WellFormed(asset)
  {
    ClassifyExactly(asset);
    var taken := Classify(asset);
    hide Classify, IsUpload, IsLeftover;
    if taken.Ok? {
      match taken.value
      case Uploaded(name) => assert IsUpload(asset, name);
      case Leftover(id) => assert IsLeftover(asset, id);
    }
  }

  /** When there is a plan, from the response itself: a known channel and a generation of at most eighteen digits,
      well-formed assets, no two uploads of one name, and a generation that goes on from the transactions uploaded. */
  lemma PlannedIff(channel: string, generation: int, value: Json)
    ensures Planned(channel, generation, value).Ok? <==>
            && channel in {"stable", "dev", "nightly"} && 1 <= generation <= 999999999999999999
            && value.Arr? && AllObjects(Flatten(value.items)) && (forall asset | asset in Flatten(value.items) :: WellFormed(asset))
            && var names := UploadedNames(Flatten(value.items));
               AllDifferent(names) && HistoryIsBacked(channel, names) && IsNextOrOwn(channel, generation, names)
  {
    if value.Arr? && 1 <= generation <= MAX_GENERATION {
      var flat := Flatten(value.items);
      PlannedExactly(channel, generation, value.items);
      EveryAssetCountedOnce(flat);
      forall asset | asset in flat { WellFormedIs(asset); }
      hide Planned, Flatten, Collected, Classify, WellFormed, AllObjects;
      AcceptedExactly(channel, generation, UploadedNames(flat));
      hide UploadedNames, AllDifferent, HistoryIsBacked, IsNextOrOwn, Refusal;
      assert (forall i | 0 <= i < |flat| :: Classify(flat[i]).Ok?) <==> forall asset | asset in flat :: WellFormed(asset);
    }
  }

  /** What is wrong with an asset. */
  ghost predicate WrongWith(asset: Json, e: PlanError) {
    match e
    case BadId => forall id :: !(id > 0 && Says(asset, "id", Num(id)))
    case BadName => forall name :: !(name != "" && Says(asset, "name", Str(name)))
    case BadState(name) => Says(asset, "name", Str(name)) && forall state :: !(state != "" && Says(asset, "state", Str(state)))
    case BadSize(name) => Says(asset, "name", Str(name)) && forall size :: !(size >= 0 && Says(asset, "size", Num(size)))
    case EmptyUpload(name) => Says(asset, "name", Str(name)) && Says(asset, "state", Str("uploaded")) && Says(asset, "size", Num(0))
    case _ => false
  }

  lemma WrongExactly(asset: Json)
    ensures Classify(asset).Err? ==> WrongWith(asset, Classify(asset).error)
  {
    FieldsSay(asset, "id", 1);
    FieldsSay(asset, "name", 0);
    FieldsSay(asset, "state", 0);
    FieldsSay(asset, "size", 0);
    hide IntAtLeast, NonEmpty, Says;
    var name, state, size := NonEmpty(asset, "name"), NonEmpty(asset, "state"), IntAtLeast(asset, "size", 0);
    assert name.Some? ==> Says(asset, "name", Str(name.value));
    assert state.Some? ==> Says(asset, "state", Str(state.value));
    assert size.Some? ==> Says(asset, "size", Num(size.value));
    forall id | id > 0 && Says(asset, "id", Num(id)) ensures IntAtLeast(asset, "id", 1) == Some(id) {}
    forall n | n != "" && Says(asset, "name", Str(n)) ensures name == Some(n) {}
    forall s | s != "" && Says(asset, "state", Str(s)) ensures state == Some(s) {}
    forall n | n >= 0 && Says(asset, "size", Num(n)) ensures size == Some(n) {}
  }

  /** What a collection is refused for: an asset that is wrong, or a second upload of one name. */
  lemma {:induction false} CollectedRefusal(assets: seq<Json>)
    ensures Collected(assets).Err? ==>
              var e := Collected(assets).error;
              if e.DuplicateName?
              then exists i, j | 0 <= i < j < |assets| :: IsUpload(assets[i], e.name) && IsUpload(assets[j], e.name)
              else exists asset | asset in assets :: WrongWith(asset, e)
    decreases |assets|
  {
    if assets != [] {
      var init, last := assets[..|assets| - 1], assets[|assets| - 1];
      CollectedRefusal(init);
      EveryAssetCountedOnce(init);
      KindsOfAssets(init);
      WrongExactly(last);
      ClassifyExactly(last);
      hide Classify, IsUpload, IsLeftover, WrongWith, UploadedNames, LeftoverIds, AllDifferent;
      if Collected(init).Ok? && Collected(assets).Err? {
        if Collected(assets).error.DuplicateName? && Classify(last).Ok? {
          var asset :| asset in init && IsUpload(asset, Collected(assets).error.name);
          var i :| 0 <= i < |init| && init[i] == asset;
          assert assets[i] == asset && assets[|assets| - 1] == last;
        }
      }
    }
  }

  /** Why there is no plan. */
  lemma PlanRefusal(channel: string, generation: int, value: Json)
    requires Planned(channel, generation, value).Err?
    ensures var known := channel in {"stable", "dev", "nightly"};
            var counted := 1 <= generation <= 999999999999999999;
            match Planned(channel, generation, value).error
            case BadChannel => !known
            case BadGeneration => known && !counted
            case NotAnArray => known && counted && !value.Arr?
            case NotAnObject => known && counted && value.Arr? && !AllObjects(Flatten(value.items))
            case HistoryWithoutTransaction(h) => known && counted && value.Arr? && AheadOfAll(channel, h, UploadedNames(Flatten(value.items)))
            case TransactionNotFloor =>
              known && counted && value.Arr? && LaterThere(channel, generation, UploadedNames(Flatten(value.items)))
            case NotAboveFloor(n) =>
              known && counted && value.Arr? && n >= generation && TransactionThere(channel, n, UploadedNames(Flatten(value.items)))
            case e => known && counted && value.Arr? && Collected(Flatten(value.items)) == Err(e)
  {
    if IsChannel(channel) && 1 <= generation <= MAX_GENERATION && value.Arr? {
      hide IsChannel, Planned, Assets;
      GenuineRefusal(channel, generation, value.items);
      hide *;
    }
  }

  lemma GenuineRefusal(channel: string, generation: nat, items: seq<Json>)
    requires IsChannel(channel) && 1 <= generation <= MAX_GENERATION && Planned(channel, generation, Arr(items)).Err?
    ensures var names := UploadedNames(Flatten(items));
            match Planned(channel, generation, Arr(items)).error
            case NotAnObject => !AllObjects(Flatten(items))
            case HistoryWithoutTransaction(h) => AheadOfAll(channel, h, names)
            case TransactionNotFloor => LaterThere(channel, generation, names)
            case NotAboveFloor(n) => n >= generation && TransactionThere(channel, n, names)
            case BadChannel => false
            case BadGeneration => false
            case NotAnArray => false
            case e => Collected(Flatten(items)) == Err(e)
  {
    var flat := Flatten(items);
    NeverOtherwise(flat);
    if Collected(flat).Ok? { EveryAssetCountedOnce(flat); }
    hide Flatten, Collected, UploadedNames, AllDifferent, IsChannel;
    if AllObjects(flat) && Collected(flat).Ok? { RefusalMeans(channel, generation, UploadedNames(flat)); }
    hide Refusal, AheadOfAll, TransactionThere, LaterThere;
  }

  lemma RefusalMeans(channel: string, generation: nat, names: seq<string>)
    requires 1 <= generation <= MAX_GENERATION && Refusal(channel, generation, names).Some?
    ensures match Refusal(channel, generation, names).value
            case HistoryWithoutTransaction(h) => AheadOfAll(channel, h, names)
            case TransactionNotFloor => LaterThere(channel, generation, names)
            case NotAboveFloor(n) => n >= generation && TransactionThere(channel, n, names)
            case _ => false
  {
    var floor := Floor(Transactions(channel), names);
    FloorsAre(channel, names);
    FloorIsTransaction(channel, generation, names);
    hide Floor, NamesHistory, NamesTransaction, TransactionName, IsNextOrOwn;
    assert floor > generation ==> TransactionThere(channel, floor, names);
  }

  /** A history entry that no transaction backs. */
  ghost predicate AheadOfAll(channel: string, h: nat, names: seq<string>) {
    (exists name :: name in names && NamesHistory(channel, name, h)) &&
    forall name, n: nat | name in names && NamesTransaction(channel, name, n) :: n < h
  }

  ghost predicate TransactionThere(channel: string, n: nat, names: seq<string>) {
    exists name :: name in names && NamesTransaction(channel, name, n)
  }

  ghost predicate LaterThere(channel: string, generation: int, names: seq<string>) {
    exists n: nat :: n > generation && TransactionThere(channel, n, names)
  }

  /** Assets are refused for what is wrong with them only. */
  lemma {:induction false} NeverOtherwise(assets: seq<Json>)
    ensures Collected(assets).Err? ==>
            var e := Collected(assets).error;
            e.BadId? || e.BadName? || e.BadState? || e.BadSize? || e.EmptyUpload? || e.DuplicateName?
    decreases |assets|
  {
    if assets != [] { NeverOtherwise(assets[..|assets| - 1]); }
  }

  /** What a plan says: how far the transactions and the histories go, and what is there already. */
  lemma PlanSays(channel: string, generation: int, value: Json)
    requires Planned(channel, generation, value).Ok?
    ensures var p, names := Planned(channel, generation, value).value, UploadedNames(Flatten(value.items));
            && p.channel == channel && p.generation == generation
            && (forall t, n: nat | t in names && NamesTransaction(channel, t, n) :: n <= p.transactionFloor)
            && (p.transactionFloor == 0 || exists t :: t in names && NamesTransaction(channel, t, p.transactionFloor))
            && (forall h, n: nat | h in names && NamesHistory(channel, h, n) :: n <= p.historyFloor)
            && (p.historyFloor == 0 || exists h :: h in names && NamesHistory(channel, h, p.historyFloor))
            && (p.requestedPresent <==> exists t :: t in names && NamesTransaction(channel, t, generation))
            && (p.pointerPresent <==> "channel.toml" in names)
            && (p.bundlePresent <==> "channel.toml.sigstore.json" in names)
  {
    var names := UploadedNames(Flatten(value.items));
    PlannedExactly(channel, generation, value.items);
    EveryAssetCountedOnce(Flatten(value.items));
    FloorsAre(channel, names);
    RequestedIs(channel, generation, names);
    hide Planned, Flatten, Collected, Classify, Floor, TransactionName, NamesHistory, NamesTransaction, Refusal, UploadedNames, AllDifferent;
  }

  lemma FloorsAre(channel: string, names: seq<string>)
    ensures var floor, history := Floor(Transactions(channel), names), Floor(Histories(channel), names);
            && (forall t, n: nat | t in names && NamesTransaction(channel, t, n) :: n <= floor)
            && (floor == 0 || exists t :: t in names && NamesTransaction(channel, t, floor))
            && (forall h, n: nat | h in names && NamesHistory(channel, h, n) :: n <= history)
            && (history == 0 || exists h :: h in names && NamesHistory(channel, h, history))
  {
    var floor, history := Floor(Transactions(channel), names), Floor(Histories(channel), names);
    FloorIsMax(Transactions(channel), names);
    FloorIsMax(Histories(channel), names);
    AllNames(channel, names);
    hide Floor, HistoryOf, TransactionOf, NamesHistory, NamesTransaction;
    forall t, n: nat | t in names && NamesTransaction(channel, t, n) ensures n <= floor { assert Transactions(channel)(t) == Some(n); }
    forall h, n: nat | h in names && NamesHistory(channel, h, n) ensures n <= history { assert Histories(channel)(h) == Some(n); }
    if floor != 0 { var t :| t in names && Transactions(channel)(t) == Some(floor); }
    if history != 0 { var h :| h in names && Histories(channel)(h) == Some(history); }
  }

  lemma RequestedIs(channel: string, generation: nat, names: seq<string>)
    requires 1 <= generation <= MAX_GENERATION
    ensures TransactionName(channel, generation) in names <==> exists t :: t in names && NamesTransaction(channel, t, generation)
  {
    hide Print;
    assert NamesTransaction(channel, TransactionName(channel, generation), generation);
  }

  /** Resuming: once its own transaction is uploaded, the same generation is accepted again, now as present. */
  lemma Resumable(channel: string, generation: nat, uploaded: seq<string>, cleanup: seq<int>)
    requires 1 <= generation <= MAX_GENERATION && Refusal(channel, generation, uploaded) == None
    ensures var after := uploaded + [TransactionName(channel, generation)];
            && Refusal(channel, generation, after) == None
            && PlanFor(channel, generation, Inventory(after, cleanup)).requestedPresent
            && PlanFor(channel, generation, Inventory(after, cleanup)).transactionFloor == generation
  {
    var own := TransactionName(channel, generation);
    assert (uploaded + [own])[..|uploaded|] == uploaded;
    OwnTransaction(channel, generation);
    OwnIsNoHistory(channel, own);
    AcceptedExactly(channel, generation, uploaded);
    FloorIsMax(Transactions(channel), uploaded);
    hide TransactionOf, HistoryOf, TransactionName;
  }

  /** The same for whole plans: adding the uploaded transaction to the response leaves the plan acceptable. */
  lemma ReplanAccepted(channel: string, generation: nat, items: seq<Json>, own: Json)
    requires Planned(channel, generation, Arr(items)).Ok? && !Planned(channel, generation, Arr(items)).value.requestedPresent
    requires own.Obj? && Classify(own) == Ok(Uploaded(TransactionName(channel, generation)))
    ensures var again := Planned(channel, generation, Arr(items + [own]));
            && again.Ok? && again.value.requestedPresent && again.value.transactionFloor == generation
            && again.value.cleanupIds == Planned(channel, generation, Arr(items)).value.cleanupIds
  {
    PlannedExactly(channel, generation, items);
    PlannedExactly(channel, generation, items + [own]);
    var inv := Collected(Flatten(items)).value;
    OneMoreItem(items, own);
    OneMoreUpload(Flatten(items), own);
    hide Planned, Flatten, Collected, TransactionName, Classify, Refusal, Floor;
    Resumable(channel, generation, inv.uploaded, inv.cleanup);
  }

  /** When an array of items is planned for, and how. */
  lemma PlannedExactly(channel: string, generation: nat, items: seq<Json>)
    ensures var p, flat := Planned(channel, generation, Arr(items)), Flatten(items);
            && (p.Ok? <==>
                  && IsChannel(channel) && 1 <= generation <= MAX_GENERATION && AllObjects(flat)
                  && Collected(flat).Ok? && Refusal(channel, generation, Collected(flat).value.uploaded) == None)
            && (p.Ok? ==> p.value == PlanFor(channel, generation, Collected(flat).value))
  {
    hide IsChannel, Flatten, Collected, Refusal, PlanFor;
  }

  predicate AllObjects(items: seq<Json>) {
    forall item | item in items :: item.Obj?
  }

  lemma OneMoreItem(items: seq<Json>, own: Json)
    requires own.Obj?
    ensures Flatten(items + [own]) == Flatten(items) + [own]
  {
    assert (items + [own])[..|items|] == items;
  }

  lemma OneMoreUpload(assets: seq<Json>, own: Json)
    requires Collected(assets).Ok? && Classify(own).Ok? && Classify(own).value.Uploaded?
    ensures var inv, name := Collected(assets).value, Classify(own).value.name;
            name !in inv.uploaded ==> Collected(assets + [own]) == Ok(Inventory(inv.uploaded + [name], inv.cleanup))
  {
    assert (assets + [own])[..|assets|] == assets;
    hide Classify;
  }

  /** A transaction's name is no history name. */
  lemma OwnIsNoHistory(channel: string, name: string)
    requires TransactionOf(channel, name).Some?
    ensures HistoryOf(channel, name) == None
  {
    var tail := name[|name| - |TRANSACTION_SUFFIX|..];
    assert tail[|tail| - 1] == 'n' && tail[|tail| - 6] == 'n';
  }

  /** Publications one after another: each accepted generation uploads its transaction if it is not there yet. */
  function Publish(channel: string, uploaded: seq<string>, generations: seq<nat>): seq<string> {
    if generations == [] then uploaded
    else
      var before := Publish(channel, uploaded, generations[..|generations| - 1]);
      var name := TransactionName(channel, generations[|generations| - 1]);
      if name in before then before else before + [name]
  }

  /** Every generation of the run is accepted on what the earlier ones left. */
  predicate AllAccepted(channel: string, uploaded: seq<string>, generations: seq<nat>) {
    forall k | 0 <= k < |generations| ::
      && 1 <= generations[k] <= MAX_GENERATION
      && Refusal(channel, generations[k], Publish(channel, uploaded, generations[..k])) == None
  }

  /** Over any run of accepted publications generations never go down, and only a resumption repeats one. */
  lemma RunIsMonotone(channel: string, uploaded: seq<string>, generations: seq<nat>, i: nat, j: nat)
    requires AllAccepted(channel, uploaded, generations) && i < j < |generations|
    ensures generations[i] <= generations[j]
  {
    var own, later := TransactionName(channel, generations[i]), Publish(channel, uploaded, generations[..j]);
    PublishedStays(channel, uploaded, generations, i, j);
    AcceptedExactly(channel, generations[j], later);
    assert own in later && NamesTransaction(channel, own, generations[i]);
    hide NamesTransaction, TransactionName, Publish;
  }

  lemma {:induction false} PublishedStays(channel: string, uploaded: seq<string>, generations: seq<nat>, i: nat, j: nat)
    requires i < j <= |generations|
    ensures TransactionName(channel, generations[i]) in Publish(channel, uploaded, generations[..j])
    decreases j
  {
    hide TransactionName;
    assert generations[..j][..j - 1] == generations[..j - 1];
    if i < j - 1 { PublishedStays(channel, uploaded, generations, i, j - 1); }
  }
}
