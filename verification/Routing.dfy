/** Addresses: the builders of src/osc-addresses.h, the tests of src/osc-addresses.cpp, the splitting and
    route selection of src/osc-controls.cpp, and the selectors and visitors of src/osc-util.cpp. What a
    route then does to OBS is not part of this model. */
module Routing {
  import opened Bytes
  import Glob

  // ---- prefix tests ----------------------------------------------------------

  /** The text behind a prefix, if there is any. */
  function Tail(address: string, prefix: string): Option<string> {
    if |address| <= |prefix| || !(prefix <= address) then None else Some(address[|prefix|..])
  }

  /** The sub-path behind a base route: empty for the base itself. */
  function SubAction(address: string, base: string): Option<string> {
    if !(base <= address) then None
    else if |address| == |base| then Some("")
    else if address[|base|] == '/' then Some(address[|base| + 1..])
    else None
  }

  /** `strchr` for a slash: its position, or the length. */
  function FirstSlash(s: string, k: nat := 0): (i: nat)
    requires k <= |s|
    ensures k <= i <= |s| && (i < |s| ==> s[i] == '/')
    ensures forall j :: k <= j < i ==> s[j] != '/'
    decreases |s| - k
  {
    if k == |s| || s[k] == '/' then k else FirstSlash(s, k + 1)
  }

  datatype Split = NoSplit | Split(first: string, second: string)

  /** `split_two_segments`: at the first slash, both sides non-empty. */
  function SplitTwo(rest: string): Split {
    var i := FirstSlash(rest);
    if i + 1 >= |rest| || i == 0 then NoSplit else Split(rest[..i], rest[i + 1..])
  }

  lemma SplitsJoined(first: string, second: string)
    ensures SplitTwo(first + "/" + second) == Split(first, second)
            <==> first != "" && second != "" && '/' !in first
  {
    var s := first + "/" + second;
    var i := FirstSlash(s);
    assert s[|first|] == '/';
    if '/' !in first {
      assert forall j :: 0 <= j < |first| ==> s[j] == first[j];
      assert i == |first| && s[..i] == first && s[i + 1..] == second;
    } else {
      var k :| 0 <= k < |first| && first[k] == '/';
      assert s[k] == '/';
      assert i < |first| && |s[..i]| < |first|;
    }
  }

  /** `strrchr` for a slash: its position, or the length. */
  function LastSlash(s: string): (i: nat)
    ensures i <= |s| && (i < |s| ==> s[i] == '/')
    ensures forall j :: 0 <= j < |s| && s[j] == '/' ==> j <= i < |s|
  {
    if '/' !in s then |s| else LastSlashBefore(s, |s|)
  }

  function LastSlashBefore(s: string, k: nat): (i: nat)
    requires k <= |s| && '/' in s[..k]
    ensures i < k && s[i] == '/' && forall j :: i < j < k ==> s[j] != '/'
  {
    if s[k - 1] == '/' then k - 1
    else
      assert s[..k] == s[..k - 1] + [s[k - 1]];
      LastSlashBefore(s, k - 1)
  }

  /** What the comment above `split_two_segments` describes: at the last slash. */
  function SplitAtLast(rest: string): Split {
    var i := LastSlash(rest);
    if i + 1 >= |rest| || i == 0 then NoSplit else Split(rest[..i], rest[i + 1..])
  }

  /** The comment is right about a text exactly when it has at most one slash, or when slashes both at
      its beginning and at its end make either way of splitting fail. */
  lemma FirstSlashIsLastIff(rest: string)
    ensures SplitTwo(rest) == SplitAtLast(rest)
            <==> FirstSlash(rest) == LastSlash(rest) || (rest[0] == '/' && rest[|rest| - 1] == '/')
  {
    var i, k := FirstSlash(rest), LastSlash(rest);
    if i != k {
      assert i < k < |rest|;
      if SplitTwo(rest).Split? && SplitAtLast(rest).Split? {
        assert |SplitTwo(rest).first| != |SplitAtLast(rest).first|;
      }
    }
  }

  // ---- route selection -------------------------------------------------------

  datatype Flag = Visible | Locked

  /** What `osc_dispatch_command` decides to do for a message with arguments. */
  datatype Route =
    | Studio | TriggerTransition | SelectTransition(name: string)
    | ProgramIndex(index: string) | Program(name: string) | Preview(name: string)
    | Output(base: string, sub: string) | Screenshot
    | Mute(pattern: string) | Volume(name: string) | Decibel(name: string) | Media(name: string, verb: string)
    | ItemFlag(flag: Flag, scene: string, item: string) | ItemOrder(scene: string, item: string)
    | FilterParameter(source: string, selector: string, param: string) | FilterEnabled(source: string, selector: string)
    | Transform(scene: string, item: string, field: string)
    | Hotkey(name: string) | Profile(name: string) | Collection(name: string)
    | Malformed | Unhandled

  /** The bases in the output table. */
  const OUTPUTS: seq<string> := ["/stream", "/record", "/replay", "/virtualcam"]

  /** The first output from the `k`-th on whose base the address is under. */
  function OutputRoute(a: string, k: nat := 0): Option<Route>
    requires k <= |OUTPUTS|
    decreases |OUTPUTS| - k
  {
    if k == |OUTPUTS| then None
    else
      match SubAction(a, OUTPUTS[k])
      case Some(sub) => Some(Output(OUTPUTS[k], sub))
      case None => OutputRoute(a, k + 1)
  }

  function MediaRoute(rest: string): Route {
    match SplitTwo(rest)
    case NoSplit => Malformed
    case Split(name, verb) => Media(name, verb)
  }

  function FlagRoute(flag: Flag, rest: string): Route {
    match SplitTwo(rest)
    case NoSplit => Malformed
    case Split(scene, item) => ItemFlag(flag, scene, item)
  }

  function OrderRoute(rest: string): Route {
    match SplitTwo(rest)
    case NoSplit => Malformed
    case Split(scene, item) => ItemOrder(scene, item)
  }

  /** Three segments select one parameter of a filter, two its enabled state. */
  function FilterRoute(rest: string): Route {
    match SplitTwo(rest)
    case NoSplit => Malformed
    case Split(source, rest2) =>
      match SplitTwo(rest2)
      case NoSplit => FilterEnabled(source, rest2)
      case Split(selector, param) => FilterParameter(source, selector, param)
  }

  function TransformRoute(rest: string): Route {
    match SplitTwo(rest)
    case NoSplit => Malformed
    case Split(scene, remainder) =>
      match SplitTwo(remainder)
      case NoSplit => Malformed
      case Split(item, field) => Transform(scene, item, field)
  }

  datatype Branch =
    | MuteBranch | VolumeBranch | DecibelBranch | MediaBranch
    | VisibleBranch | LockedBranch | OrderBranch | FilterBranch | TransformBranch
    | HotkeyBranch | ProfileBranch | CollectionBranch

  /** What a branch makes of the text behind its prefix. */
  function Taken(branch: Branch, rest: string): Route {
    match branch
    case MuteBranch => Mute(rest)
    case VolumeBranch => Volume(rest)
    case DecibelBranch => Decibel(rest)
    case MediaBranch => MediaRoute(rest)
    case VisibleBranch => FlagRoute(Visible, rest)
    case LockedBranch => FlagRoute(Locked, rest)
    case OrderBranch => OrderRoute(rest)
    case FilterBranch => FilterRoute(rest)
    case TransformBranch => TransformRoute(rest)
    case HotkeyBranch => Hotkey(rest)
    case ProfileBranch => Profile(rest)
    case CollectionBranch => Collection(rest)
  }

  datatype Prefixed = Prefixed(prefix: string, branch: Branch)

  /** The branches behind the one for screenshots, in the order in which they are tried. */
  const BRANCHES: seq<Prefixed> :=
    [Prefixed("/mute/", MuteBranch), Prefixed("/volume/", VolumeBranch), Prefixed("/db/", DecibelBranch),
     Prefixed("/media/", MediaBranch), Prefixed("/visible/", VisibleBranch), Prefixed("/locked/", LockedBranch),
     Prefixed("/order/", OrderBranch), Prefixed("/filter/", FilterBranch), Prefixed("/transform/", TransformBranch),
     Prefixed("/hotkey/", HotkeyBranch), Prefixed("/profile/", ProfileBranch),
     Prefixed("/collection/", CollectionBranch)]

  /** The first branch from the `k`-th on whose prefix has something behind it. */
  function BranchRoute(a: string, branches: seq<Prefixed>, k: nat := 0): Route
    requires k <= |branches|
    decreases |branches| - k
  {
    if k == |branches| then Unhandled
    else
      match Tail(a, branches[k].prefix)
      case Some(rest) => Taken(branches[k].branch, rest)
      case None => BranchRoute(a, branches, k + 1)
  }

  /** All branches, in order. */
  function CommandRoute(a: string): Route {
    if a == "/studio" then Studio
    else if a == "/transition" then TriggerTransition
    else if Tail(a, "/transition/").Some? then
      if Tail(a, "/transition/").value == "go" then TriggerTransition
      else SelectTransition(Tail(a, "/transition/").value)
    else if Tail(a, "/program/index/").Some? then ProgramIndex(Tail(a, "/program/index/").value)
    else if Tail(a, "/program/").Some? then Program(Tail(a, "/program/").value)
    else if Tail(a, "/preview/").Some? then Preview(Tail(a, "/preview/").value)
    else if OutputRoute(a).Some? then OutputRoute(a).value
    else if a == "/screenshot" then Screenshot
    else BranchRoute(a, BRANCHES)
  }

  datatype Dispatch = Foreign | Subscription(unsubscribe: bool) | Command(route: Route)

  /** `osc_dispatch_command` for a message with at least one argument. */
  function Dispatched(a: string): Dispatch {
    if !("/" <= a) then Foreign
    else if a == "/subscribe" || a == "/unsubscribe" then Subscription(a == "/unsubscribe")
    else Command(CommandRoute(a))
  }

  // ---- builders --------------------------------------------------------------

  function JoinedFor(prefix: string, parent: string, child: string): string {
    prefix + parent + "/" + child
  }

  function VisibleFor(scene: string, item: string): string {
    JoinedFor("/visible/", scene, item)
  }

  function LockedFor(scene: string, item: string): string {
    JoinedFor("/locked/", scene, item)
  }

  function OrderFor(scene: string, item: string): string {
    JoinedFor("/order/", scene, item)
  }

  function FilterFor(source: string, filter: string): string {
    JoinedFor("/filter/", source, filter)
  }

  function TransformFor(scene: string, item: string, field: string): string {
    "/transform/" + scene + "/" + item + "/" + field
  }

  // ---- the builders are undone -----------------------------------------------

  /** Two texts differ at some position from `k` on that both have: neither is a prefix of the other. */
  predicate Apart(p: string, q: string, k: nat := 1)
    decreases |p| - k
  {
    k < |p| && k < |q| && (p[k] != q[k] || Apart(p, q, k + 1))
  }

  lemma {:induction false} NotUnder(a: string, q: string, p: string, k: nat)
    requires q <= a && Apart(q, p, k)
    ensures !(p <= a) && Tail(a, p) == None && SubAction(a, p) == None && a != p
    decreases |q| - k
  {
    assert a[k] == q[k];
    if p[k] == q[k] {
      NotUnder(a, q, p, k + 1);
    }
  }

  /** None of the branches in front of the outputs takes an address under `q`. */
  predicate ApartFromScenes(q: string) {
    && Apart(q, "/studio") && Apart(q, "/transition") && Apart(q, "/transition/")
    && Apart(q, "/program/index/") && Apart(q, "/program/") && Apart(q, "/preview/")
    && Apart(q, "/subscribe") && Apart(q, "/unsubscribe")
  }

  predicate ApartFromOutputs(q: string) {
    forall k :: 0 <= k < |OUTPUTS| ==> Apart(q, OUTPUTS[k])
  }

  /** An address that gets past the branches for subscriptions, transitions and scenes. */
  predicate PastScenes(a: string) {
    && a != "/studio" && a != "/transition" && Tail(a, "/transition/") == None
    && Tail(a, "/program/index/") == None && Tail(a, "/program/") == None && Tail(a, "/preview/") == None
    && a != "/subscribe" && a != "/unsubscribe"
  }

  lemma NotScenes(a: string, q: string)
    requires q <= a && ApartFromScenes(q)
    ensures PastScenes(a)
  {
    NotUnder(a, q, "/studio", 1);
    NotUnder(a, q, "/transition", 1);
    NotUnder(a, q, "/transition/", 1);
    NotUnder(a, q, "/program/index/", 1);
    NotUnder(a, q, "/program/", 1);
    NotUnder(a, q, "/preview/", 1);
    NotUnder(a, q, "/subscribe", 1);
    NotUnder(a, q, "/unsubscribe", 1);
  }

  lemma {:induction false} NoOutput(a: string, q: string, k: nat)
    requires q <= a && ApartFromOutputs(q) && k <= |OUTPUTS|
    ensures OutputRoute(a, k) == None
    decreases |OUTPUTS| - k
  {
    if k < |OUTPUTS| {
      NotUnder(a, q, OUTPUTS[k], 1);
      NoOutput(a, q, k + 1);
    }
  }

  lemma PastScenesDispatch(a: string)
    requires "/" <= a && PastScenes(a)
    ensures Dispatched(a) == Command(if OutputRoute(a).Some? then OutputRoute(a).value
                                     else if a == "/screenshot" then Screenshot else BranchRoute(a, BRANCHES))
  {
  }

  /** The `k`-th branch's prefix is apart from all that is tried before it. */
  predicate Distinguished(k: nat)
    requires k < |BRANCHES|
  {
    var q := BRANCHES[k].prefix;
    && "/" <= q && ApartFromScenes(q) && ApartFromOutputs(q) && Apart(q, "/screenshot")
    && forall i :: 0 <= i < k ==> Apart(q, BRANCHES[i].prefix)
  }

  lemma TailOf(prefix: string, rest: string)
    requires rest != ""
    ensures prefix <= prefix + rest && Tail(prefix + rest, prefix) == Some(rest)
  {
  }

  lemma {:induction false} FoundInBranches(a: string, branches: seq<Prefixed>, i: nat, k: nat, rest: string)
    requires i <= k < |branches| && rest != "" && a == branches[k].prefix + rest
    requires forall j :: 0 <= j < k ==> Apart(branches[k].prefix, branches[j].prefix)
    ensures BranchRoute(a, branches, i) == Taken(branches[k].branch, rest)
    decreases k - i
  {
    TailOf(branches[k].prefix, rest);
    if i < k {
      NotUnder(a, branches[k].prefix, branches[i].prefix, 1);
      FoundInBranches(a, branches, i + 1, k, rest);
    }
  }

  lemma ReachesBranches(a: string, k: nat)
    requires k < |BRANCHES| && Distinguished(k) && BRANCHES[k].prefix <= a
    ensures Dispatched(a) == Command(BranchRoute(a, BRANCHES))
  {
    var q := BRANCHES[k].prefix;
    NotScenes(a, q);
    NoOutput(a, q, 0);
    NotUnder(a, q, "/screenshot", 1);
    PastScenesDispatch(a);
  }

  lemma BranchList()
    ensures |BRANCHES| == 12
    ensures BRANCHES[0] == Prefixed("/mute/", MuteBranch) && BRANCHES[1] == Prefixed("/volume/", VolumeBranch)
    ensures BRANCHES[2] == Prefixed("/db/", DecibelBranch) && BRANCHES[3] == Prefixed("/media/", MediaBranch)
    ensures BRANCHES[4] == Prefixed("/visible/", VisibleBranch) && BRANCHES[5] == Prefixed("/locked/", LockedBranch)
    ensures BRANCHES[6] == Prefixed("/order/", OrderBranch) && BRANCHES[7] == Prefixed("/filter/", FilterBranch)
    ensures BRANCHES[8] == Prefixed("/transform/", TransformBranch)
    ensures BRANCHES[9] == Prefixed("/hotkey/", HotkeyBranch) && BRANCHES[10] == Prefixed("/profile/", ProfileBranch)
    ensures BRANCHES[11] == Prefixed("/collection/", CollectionBranch)
  {
  }

  lemma ApartFromFront(k: nat)
    requires k < |BRANCHES|
    ensures var q := BRANCHES[k].prefix;
            "/" <= q && ApartFromScenes(q) && Apart(q, "/screenshot")
  {
    BranchList();
  }

  lemma ApartFromTable(k: nat)
    requires k < |BRANCHES|
    ensures ApartFromOutputs(BRANCHES[k].prefix)
  {
    BranchList();
    assert OUTPUTS[0] == "/stream" && OUTPUTS[1] == "/record" && OUTPUTS[2] == "/replay" && OUTPUTS[3] == "/virtualcam";
  }

  lemma ApartFromEarlier(k: nat)
    requires k < |BRANCHES|
    ensures forall i :: 0 <= i < k ==> Apart(BRANCHES[k].prefix, BRANCHES[i].prefix)
  {
    BranchList();
  }

  lemma AllDistinguished(k: nat)
    requires k < |BRANCHES|
    ensures Distinguished(k)
  {
    ApartFromFront(k);
    ApartFromTable(k);
    ApartFromEarlier(k);
  }

  /** The branches exclude each other, so an address under a prefix is taken by the branch it belongs to. */
  lemma BranchDispatches(k: nat, prefix: string, branch: Branch, rest: string)
    requires k < |BRANCHES| && BRANCHES[k] == Prefixed(prefix, branch) && rest != ""
    ensures Dispatched(prefix + rest) == Command(Taken(branch, rest))
  {
    AllDistinguished(k);
    ReachesBranches(prefix + rest, k);
    FoundInBranches(prefix + rest, BRANCHES, 0, k, rest);
  }

  lemma JoinedTail(prefix: string, parent: string, child: string)
    ensures JoinedFor(prefix, parent, child) == prefix + (parent + "/" + child)
  {
  }

  /** What the plugin's own README asks of a parent name, and what every child name needs. */
  predicate Addressable(parent: string, child: string) {
    parent != "" && '/' !in parent && child != ""
  }

  /** Item feedback is a control address for the same item exactly when neither name is empty and the
      scene's has no slash; the item's may have some. */
  lemma ItemAddressesDispatchIff(scene: string, item: string)
    ensures Dispatched(VisibleFor(scene, item)) == Command(ItemFlag(Visible, scene, item)) <==> Addressable(scene, item)
    ensures Dispatched(LockedFor(scene, item)) == Command(ItemFlag(Locked, scene, item)) <==> Addressable(scene, item)
    ensures Dispatched(OrderFor(scene, item)) == Command(ItemOrder(scene, item)) <==> Addressable(scene, item)
  {
    var rest := scene + "/" + item;
    SplitsJoined(scene, item);
    JoinedTail("/visible/", scene, item);
    JoinedTail("/locked/", scene, item);
    JoinedTail("/order/", scene, item);
    BranchList();
    BranchDispatches(4, "/visible/", VisibleBranch, rest);
    BranchDispatches(5, "/locked/", LockedBranch, rest);
    BranchDispatches(6, "/order/", OrderBranch, rest);
  }

  /** Filter feedback is one when, besides, the filter's name does not split itself. */
  lemma FilterAddressDispatchesIff(source: string, filter: string)
    ensures Dispatched(FilterFor(source, filter)) == Command(FilterEnabled(source, filter))
            <==> Addressable(source, filter) && (FirstSlash(filter) == 0 || FirstSlash(filter) + 1 >= |filter|)
  {
    FilterAddressRoute(source, filter);
    FilterRouteIff(source, filter);
  }

  lemma FilterAddressRoute(source: string, filter: string)
    ensures Dispatched(FilterFor(source, filter)) == Command(FilterRoute(source + "/" + filter))
  {
    JoinedTail("/filter/", source, filter);
    BranchList();
    BranchDispatches(7, "/filter/", FilterBranch, source + "/" + filter);
  }

  lemma FilterRouteIff(source: string, filter: string)
    ensures FilterRoute(source + "/" + filter) == FilterEnabled(source, filter)
            <==> Addressable(source, filter) && (FirstSlash(filter) == 0 || FirstSlash(filter) + 1 >= |filter|)
  {
    SplitsJoined(source, filter);
    FilterRouteIs(source + "/" + filter, source, filter);
  }

  lemma FilterRouteIs(rest: string, source: string, filter: string)
    ensures FilterRoute(rest) == FilterEnabled(source, filter)
            <==> SplitTwo(rest) == Split(source, filter) && SplitTwo(filter) == NoSplit
  {
  }

  /** Transform feedback is one when neither the scene's nor the item's name has a slash. */
  lemma TransformAddressDispatchesIff(scene: string, item: string, field: string)
    ensures Dispatched(TransformFor(scene, item, field)) == Command(Transform(scene, item, field))
            <==> Addressable(scene, item) && Addressable(item, field)
  {
    TransformAddressRoute(scene, item, field);
    TransformRouteIff(scene, item, field);
  }

  lemma TransformAddressRoute(scene: string, item: string, field: string)
    ensures Dispatched(TransformFor(scene, item, field)) == Command(TransformRoute(scene + "/" + (item + "/" + field)))
  {
    var rest := scene + "/" + (item + "/" + field);
    assert TransformFor(scene, item, field) == "/transform/" + rest;
    BranchList();
    BranchDispatches(8, "/transform/", TransformBranch, rest);
  }

  lemma TransformRouteIff(scene: string, item: string, field: string)
    ensures TransformRoute(scene + "/" + (item + "/" + field)) == Transform(scene, item, field)
            <==> Addressable(scene, item) && Addressable(item, field)
  {
    SplitsJoined(scene, item + "/" + field);
    SplitsJoined(item, field);
    SplitSides(scene, item + "/" + field);
  }

  /** A split never loses or invents a character. */
  lemma SplitSides(first: string, second: string)
    ensures var s := SplitTwo(first + "/" + second);
            s.Split? ==> s.first + "/" + s.second == first + "/" + second
  {
    var whole := first + "/" + second;
    var i := FirstSlash(whole);
    assert i < |whole| ==> whole == whole[..i] + "/" + whole[i + 1..];
  }

  // ---- sources and outputs ---------------------------------------------------

  function MuteFor(name: string): string {
    "/mute/" + name
  }

  function VolumeFor(name: string): string {
    "/volume/" + name
  }

  function MediaStateFor(name: string): string {
    "/media/" + name + "/state"
  }

  lemma SubActionOf(base: string, sub: string)
    ensures base <= base + "/" + sub && SubAction(base + "/" + sub, base) == Some(sub)
    ensures SubAction(base, base) == Some("")
  {
    assert (base + "/" + sub)[|base| + 1..] == sub;
  }

  /** The bases are apart from each other and from the branches in front of them. */
  lemma OutputsApart(k: nat)
    requires k < |OUTPUTS|
    ensures ApartFromScenes(OUTPUTS[k]) && "/" <= OUTPUTS[k]
    ensures forall i :: 0 <= i < k ==> Apart(OUTPUTS[k], OUTPUTS[i])
  {
    assert OUTPUTS[0] == "/stream" && OUTPUTS[1] == "/record" && OUTPUTS[2] == "/replay" && OUTPUTS[3] == "/virtualcam";
  }

  lemma {:induction false} FoundInTable(a: string, i: nat, k: nat, sub: string)
    requires i <= k < |OUTPUTS| && OUTPUTS[k] <= a && SubAction(a, OUTPUTS[k]) == Some(sub)
    requires forall j :: 0 <= j < k ==> Apart(OUTPUTS[k], OUTPUTS[j])
    ensures OutputRoute(a, i) == Some(Output(OUTPUTS[k], sub))
    decreases k - i
  {
    if i < k {
      NotUnder(a, OUTPUTS[k], OUTPUTS[i], 1);
      FoundInTable(a, i + 1, k, sub);
    }
  }

  /** Every output in the table is reached under its own base, with the text behind it as the sub-action. */
  lemma OutputAddressesDispatch(k: nat, sub: string)
    requires k < |OUTPUTS|
    ensures Dispatched(OUTPUTS[k] + "/" + sub) == Command(Output(OUTPUTS[k], sub))
    ensures Dispatched(OUTPUTS[k]) == Command(Output(OUTPUTS[k], ""))
  {
    OutputsApart(k);
    SubActionOf(OUTPUTS[k], sub);
    FoundInTable(OUTPUTS[k] + "/" + sub, 0, k, sub);
    FoundInTable(OUTPUTS[k], 0, k, "");
    NotScenes(OUTPUTS[k] + "/" + sub, OUTPUTS[k]);
    NotScenes(OUTPUTS[k], OUTPUTS[k]);
    PastScenesDispatch(OUTPUTS[k] + "/" + sub);
    PastScenesDispatch(OUTPUTS[k]);
  }

  /** Mute and volume feedback are control addresses for the same source exactly when its name is not
      empty, slashes or not. */
  lemma SourceAddressesDispatchIff(name: string)
    ensures Dispatched(MuteFor(name)) == Command(Mute(name)) <==> name != ""
    ensures Dispatched(VolumeFor(name)) == Command(Volume(name)) <==> name != ""
  {
    BranchList();
    SomethingBehind(MuteFor(name), 0, name);
    SomethingBehind(VolumeFor(name), 1, name);
    if name != "" {
      BranchDispatches(0, "/mute/", MuteBranch, name);
      BranchDispatches(1, "/volume/", VolumeBranch, name);
    }
  }

  /** A branch takes nothing without a text behind its prefix. */
  lemma SomethingBehind(a: string, k: nat, name: string)
    requires k < |BRANCHES| && BRANCHES[k].prefix <= a
    ensures Dispatched(a) == Command(Mute(name)) || Dispatched(a) == Command(Volume(name)) ==> name != ""
  {
    AllDistinguished(k);
    ReachesBranches(a, k);
    SomethingInBranch(a, BRANCHES, 0, name);
  }

  lemma {:induction false} SomethingInBranch(a: string, branches: seq<Prefixed>, k: nat, name: string)
    requires k <= |branches|
    ensures BranchRoute(a, branches, k) == Mute(name) || BranchRoute(a, branches, k) == Volume(name) ==> name != ""
    decreases |branches| - k
  {
    if k < |branches| {
      SomethingInBranch(a, branches, k + 1, name);
    }
  }

  /** Media feedback needs a name without slashes. */
  lemma MediaAddressDispatchesIff(name: string)
    ensures Dispatched(MediaStateFor(name)) == Command(Media(name, "state")) <==> name != "" && '/' !in name
  {
    var rest := name + "/" + "state";
    assert MediaStateFor(name) == "/media/" + rest;
    SplitsJoined(name, "state");
    BranchList();
    BranchDispatches(3, "/media/", MediaBranch, rest);
  }

  // ---- selectors -------------------------------------------------------------

  predicate Digit(c: char) {
    '0' <= c <= '9'
  }

  predicate IndexSegment(segment: string) {
    segment != "" && forall k :: 0 <= k < |segment| ==> Digit(segment[k])
  }

  /** `osc_index_segment`. */
  method IsIndexSegment(segment: string) returns (r: bool)
    ensures r == IndexSegment(segment)
  {
    if segment == "" {
      return false;
    }
    for k := 0 to |segment|
      invariant forall j :: 0 <= j < k ==> Digit(segment[j])
    {
      if segment[k] < '0' || segment[k] > '9' {
        return false;
      }
    }
    return true;
  }

  function Decimal(segment: string): nat
    requires forall k :: 0 <= k < |segment| ==> Digit(segment[k])
  {
    if segment == "" then 0
    else
      assert Digit(segment[|segment| - 1]);
      Decimal(segment[..|segment| - 1]) * 10 + (segment[|segment| - 1] as int - '0' as int)
  }

  /** `osc_selector_matches`: digits select by position, anything else by name. */
  ghost predicate SelectorMatches(selector: string, name: string, index: nat) {
    if IndexSegment(selector) then Decimal(selector) == index else Glob.Accepts(selector, name)
  }

  /** A child's own name selects exactly the children of that name when it is neither all digits nor a
      pattern, and otherwise not. */
  lemma NameSelectsItselfIff(name: string)
    ensures (forall other, index :: SelectorMatches(name, other, index) <==> other == name)
            <==> !IndexSegment(name) && !Glob.HasWildcard(name)
  {
    if IndexSegment(name) {
      var index := Decimal(name) + 1;
      assert !SelectorMatches(name, name, index);
    } else {
      Glob.ExactNameIffNoWildcard(name);
      if !Glob.HasWildcard(name) {
        forall other, index: nat ensures SelectorMatches(name, other, index) <==> other == name {
          assert Glob.Accepts(name, other) <==> other == name;
        }
      } else {
        var other :| !(Glob.Accepts(name, other) <==> other == name);
        assert SelectorMatches(name, other, 0) == Glob.Accepts(name, other);
      }
    }
  }

  function DigitOf(k: nat): char
    requires k < 10
  {
    "0123456789"[k]
  }

  /** A position written down. */
  function DigitsOf(n: nat): string {
    if n < 10 then [DigitOf(n)] else DigitsOf(n / 10) + [DigitOf(n % 10)]
  }

  lemma DigitIs(k: nat)
    requires k < 10
    ensures Digit(DigitOf(k)) && DigitOf(k) as int - '0' as int == k
  {
  }

  lemma {:induction false} DigitsMean(n: nat)
    ensures IndexSegment(DigitsOf(n)) && Decimal(DigitsOf(n)) == n
    decreases n
  {
    DigitIs(n % 10);
    if n >= 10 {
      DigitsMean(n / 10);
      assert DigitsOf(n)[..|DigitsOf(n)| - 1] == DigitsOf(n / 10);
    } else {
      assert DigitsOf(n)[..0] == "";
    }
  }

  /** The digits of a position select exactly what is at that position, whatever its name is. */
  lemma DigitsSelectThePosition(n: nat, name: string, index: nat)
    ensures SelectorMatches(DigitsOf(n), name, index) <==> index == n
  {
    DigitsMean(n);
  }

  /** Also with zeros in front. */
  lemma {:induction false} LeadingZero(segment: string)
    requires IndexSegment(segment)
    ensures IndexSegment("0" + segment) && Decimal("0" + segment) == Decimal(segment)
    decreases |segment|
  {
    var front, whole := segment[..|segment| - 1], "0" + segment;
    assert whole[..|whole| - 1] == "0" + front;
    if front == "" {
      assert Decimal("0" + front) == 0 by {
        assert "0" + front == "0" && "0"[..0] == "";
      }
    } else {
      LeadingZero(front);
    }
  }

  // ---- visiting scene items --------------------------------------------------

  datatype Item = Item(name: string, position: nat)

  /** A source of OBS, with its chain of filters; scenes have items. */
  datatype Source = Source(name: string, isScene: bool, items: seq<Item>, filters: seq<string>)

  /** An item that was visited, with the scene it is in. */
  datatype Visit = Visit(scene: string, item: Item)

  ghost predicate ItemSelected(selector: string, item: Item) {
    SelectorMatches(selector, item.name, item.position)
  }

  /** The items of one scene from the `k`-th on that the selector accepts. */
  ghost function VisitItems(scene: string, items: seq<Item>, selector: string, k: nat := 0): seq<Visit>
    requires k <= |items|
    decreases |items| - k
  {
    if k == |items| then []
    else if ItemSelected(selector, items[k]) then
      [Visit(scene, items[k])] + VisitItems(scene, items, selector, k + 1)
    else VisitItems(scene, items, selector, k + 1)
  }

  /** Exactly the items that the selector accepts are visited, and each with its scene. */
  lemma {:induction false} ItemsVisited(scene: string, items: seq<Item>, selector: string, k: nat)
    requires k <= |items|
    ensures forall v :: v in VisitItems(scene, items, selector, k) <==>
              v.scene == scene && v.item in items[k..] && SelectorMatches(selector, v.item.name, v.item.position)
    decreases |items| - k
  {
    if k < |items| {
      ItemsVisited(scene, items, selector, k + 1);
      assert items[k..] == [items[k]] + items[k + 1..];
    }
  }

  /** The walk over all scenes from the `k`-th source on, for patterns. */
  ghost function VisitByPattern(sources: seq<Source>, pattern: string, selector: string, k: nat := 0): seq<Visit>
    requires k <= |sources|
    decreases |sources| - k
  {
    if k == |sources| then []
    else if sources[k].isScene && Glob.Accepts(pattern, sources[k].name) then
      VisitItems(sources[k].name, sources[k].items, selector) + VisitByPattern(sources, pattern, selector, k + 1)
    else VisitByPattern(sources, pattern, selector, k + 1)
  }

  /** The item is visited in this source, which the pattern accepts. */
  ghost predicate VisitedIn(source: Source, pattern: string, selector: string, v: Visit) {
    source.isScene && Glob.Accepts(pattern, source.name) && v in VisitItems(source.name, source.items, selector)
  }

  /** Exactly the scenes that the pattern accepts are walked. */
  lemma {:induction false} ScenesVisited(sources: seq<Source>, pattern: string, selector: string, k: nat)
    requires k <= |sources|
    ensures forall v :: v in VisitByPattern(sources, pattern, selector, k) <==>
              exists i :: k <= i < |sources| && VisitedIn(sources[i], pattern, selector, v)
    decreases |sources| - k
  {
    if k < |sources| {
      ScenesVisited(sources, pattern, selector, k + 1);
    }
  }

  /** `obs_get_source_by_name`: its position, or the number of sources. */
  function ByName(sources: seq<Source>, name: string, k: nat := 0): (i: nat)
    requires k <= |sources|
    ensures k <= i <= |sources| && (i < |sources| ==> sources[i].name == name)
    ensures forall j :: k <= j < i ==> sources[j].name != name
    decreases |sources| - k
  {
    if k == |sources| || sources[k].name == name then k else ByName(sources, name, k + 1)
  }

  /** `osc_visit_scene_items`: a name without wildcards is looked up, a pattern walks all scenes. */
  ghost function VisitSceneItems(sources: seq<Source>, pattern: string, selector: string): seq<Visit> {
    if Glob.HasWildcard(pattern) then VisitByPattern(sources, pattern, selector)
    else
      var i := ByName(sources, pattern);
      if i < |sources| && sources[i].isScene then VisitItems(sources[i].name, sources[i].items, selector) else []
  }

  /** OBS keeps source names unique. */
  predicate UniqueNames(sources: seq<Source>) {
    forall i, j :: 0 <= i < j < |sources| ==> sources[i].name != sources[j].name
  }

  lemma {:induction false} NoneFrom(sources: seq<Source>, pattern: string, selector: string, k: nat)
    requires k <= |sources| && !Glob.HasWildcard(pattern)
    requires forall j :: k <= j < |sources| ==> sources[j].name != pattern
    ensures VisitByPattern(sources, pattern, selector, k) == []
    decreases |sources| - k
  {
    if k < |sources| {
      Glob.ExactNameIffNoWildcard(pattern);
      NoneFrom(sources, pattern, selector, k + 1);
    }
  }

  lemma {:induction false} ExactFrom(sources: seq<Source>, pattern: string, selector: string, k: nat)
    requires k <= |sources| && UniqueNames(sources) && !Glob.HasWildcard(pattern)
    ensures VisitByPattern(sources, pattern, selector, k) ==
            var i := ByName(sources, pattern, k);
            if i < |sources| && sources[i].isScene then VisitItems(sources[i].name, sources[i].items, selector) else []
    decreases |sources| - k
  {
    if k < |sources| {
      Glob.ExactNameIffNoWildcard(pattern);
      if sources[k].name == pattern {
        NoneFrom(sources, pattern, selector, k + 1);
      } else {
        ExactFrom(sources, pattern, selector, k + 1);
      }
    }
  }

  /** The shortcut for exact scene names visits what the walk over all scenes would visit. */
  lemma ShortcutVisitsTheSame(sources: seq<Source>, pattern: string, selector: string)
    requires UniqueNames(sources)
    ensures VisitSceneItems(sources, pattern, selector) == VisitByPattern(sources, pattern, selector)
  {
    if !Glob.HasWildcard(pattern) {
      ExactFrom(sources, pattern, selector, 0);
    }
  }

  // ---- feedback addresses select what they report ----------------------------

  /** The items of one name, each once and in the order of the scene. */
  function ItemsNamed(scene: string, items: seq<Item>, name: string, k: nat := 0): seq<Visit>
    requires k <= |items|
    decreases |items| - k
  {
    if k == |items| then []
    else if items[k].name == name then [Visit(scene, items[k])] + ItemsNamed(scene, items, name, k + 1)
    else ItemsNamed(scene, items, name, k + 1)
  }

  lemma {:induction false} ItemsOfOwnName(scene: string, items: seq<Item>, name: string, k: nat)
    requires k <= |items| && !IndexSegment(name) && !Glob.HasWildcard(name)
    ensures VisitItems(scene, items, name, k) == ItemsNamed(scene, items, name, k)
    decreases |items| - k
  {
    if k < |items| {
      NameSelectsItselfIff(name);
      assert SelectorMatches(name, items[k].name, items[k].position) <==> items[k].name == name;
      ItemsOfOwnName(scene, items, name, k + 1);
    }
  }

  /** The transform fields that `write_transform` knows. */
  const FIELDS: set<string> :=
    {"x", "y", "sx", "sy", "rot", "crop_left", "crop_top", "crop_right", "crop_bottom"}

  /** The scene items that a route writes to. */
  ghost function ItemsOf(sources: seq<Source>, route: Route): seq<Visit> {
    match route
    case ItemFlag(_, scene, item) => VisitSceneItems(sources, scene, item)
    case ItemOrder(scene, item) => VisitSceneItems(sources, scene, item)
    case Transform(scene, item, field) => if field in FIELDS then VisitSceneItems(sources, scene, item) else []
    case _ => []
  }

  /** The address dispatches to a route that writes to the items of that name in the `s`-th source, each
      once and in order, and to nothing else. */
  ghost predicate Addresses(sources: seq<Source>, address: string, route: Route, s: nat, name: string)
    requires s < |sources|
  {
    && Dispatched(address) == Command(route)
    && ItemsOf(sources, route) == ItemsNamed(sources[s].name, sources[s].items, name)
  }

  lemma PlainNamesVisit(sources: seq<Source>, s: nat, name: string)
    requires UniqueNames(sources) && s < |sources| && sources[s].isScene
    requires !Glob.HasWildcard(sources[s].name) && !IndexSegment(name) && !Glob.HasWildcard(name)
    ensures VisitSceneItems(sources, sources[s].name, name) == ItemsNamed(sources[s].name, sources[s].items, name)
  {
    assert ByName(sources, sources[s].name) == s;
    ItemsOfOwnName(sources[s].name, sources[s].items, name, 0);
  }

  lemma RoutesVisit(sources: seq<Source>, s: nat, name: string, field: string)
    requires UniqueNames(sources) && s < |sources| && sources[s].isScene
    requires !Glob.HasWildcard(sources[s].name) && !IndexSegment(name) && !Glob.HasWildcard(name)
    ensures var scene, items := sources[s].name, ItemsNamed(sources[s].name, sources[s].items, name);
            && (forall flag :: ItemsOf(sources, ItemFlag(flag, scene, name)) == items)
            && ItemsOf(sources, ItemOrder(scene, name)) == items
            && (field in FIELDS ==> ItemsOf(sources, Transform(scene, name, field)) == items)
  {
    PlainNamesVisit(sources, s, name);
  }

  lemma FieldDispatches(scene: string, name: string, field: string)
    requires Addressable(scene, name) && '/' !in name && field in FIELDS
    ensures Dispatched(TransformFor(scene, name, field)) == Command(Transform(scene, name, field))
  {
    TransformAddressDispatchesIff(scene, name, field);
  }

  /** Feedback addresses are control addresses for the same objects: for plain names, the addresses that
      report an item's visibility, lock, order and transform dispatch to routes that write to exactly
      the items of that name in the scene of that name. */
  lemma FeedbackAddressesReachTheirItems(sources: seq<Source>, s: nat, name: string, field: string)
    requires UniqueNames(sources) && s < |sources| && sources[s].isScene
    requires Addressable(sources[s].name, name) && !Glob.HasWildcard(sources[s].name)
    requires !IndexSegment(name) && !Glob.HasWildcard(name)
    ensures var scene := sources[s].name;
            && Addresses(sources, VisibleFor(scene, name), ItemFlag(Visible, scene, name), s, name)
            && Addresses(sources, LockedFor(scene, name), ItemFlag(Locked, scene, name), s, name)
            && Addresses(sources, OrderFor(scene, name), ItemOrder(scene, name), s, name)
            && ('/' !in name && field in FIELDS ==>
                  Addresses(sources, TransformFor(scene, name, field), Transform(scene, name, field), s, name))
  {
    RoutesVisit(sources, s, name, field);
    ItemAddressesDispatchIff(sources[s].name, name);
    if '/' !in name && field in FIELDS {
      FieldDispatches(sources[s].name, name, field);
    }
  }

  // ---- filters ---------------------------------------------------------------

  /** A filter that was visited: its source, its position in the chain and its name. */
  datatype FilterVisit = FilterVisit(source: string, position: nat, name: string)

  /** The filters of one source from the `k`-th on that the selector accepts; the chain position counts. */
  ghost function VisitFilters(source: Source, selector: string, k: nat := 0): seq<FilterVisit>
    requires k <= |source.filters|
    decreases |source.filters| - k
  {
    if k == |source.filters| then []
    else if SelectorMatches(selector, source.filters[k], k) then
      [FilterVisit(source.name, k, source.filters[k])] + VisitFilters(source, selector, k + 1)
    else VisitFilters(source, selector, k + 1)
  }

  /** Exactly the filters that the selector accepts, by name or by position in the chain. */
  lemma {:induction false} FiltersVisited(source: Source, selector: string, k: nat)
    requires k <= |source.filters|
    ensures forall v :: v in VisitFilters(source, selector, k) <==>
              v.source == source.name && k <= v.position < |source.filters|
              && v.name == source.filters[v.position] && SelectorMatches(selector, v.name, v.position)
    decreases |source.filters| - k
  {
    if k < |source.filters| {
      FiltersVisited(source, selector, k + 1);
    }
  }

  /** What `set_filter_enabled` writes to for a source name without wildcards. */
  ghost function VisitFiltersOf(sources: seq<Source>, name: string, selector: string): seq<FilterVisit>
    requires !Glob.HasWildcard(name)
  {
    var i := ByName(sources, name);
    if i < |sources| then VisitFilters(sources[i], selector) else []
  }

  function FiltersNamed(source: Source, name: string, k: nat := 0): seq<FilterVisit>
    requires k <= |source.filters|
    decreases |source.filters| - k
  {
    if k == |source.filters| then []
    else if source.filters[k] == name then [FilterVisit(source.name, k, name)] + FiltersNamed(source, name, k + 1)
    else FiltersNamed(source, name, k + 1)
  }

  lemma {:induction false} FiltersOfOwnName(source: Source, name: string, k: nat)
    requires k <= |source.filters| && !IndexSegment(name) && !Glob.HasWildcard(name)
    ensures VisitFilters(source, name, k) == FiltersNamed(source, name, k)
    decreases |source.filters| - k
  {
    if k < |source.filters| {
      NameSelectsItselfIff(name);
      assert SelectorMatches(name, source.filters[k], k) <==> source.filters[k] == name;
      FiltersOfOwnName(source, name, k + 1);
    }
  }

  /** The same for filters: the address that reports a filter's state dispatches to a route that writes
      to exactly the filters of that name in the chain of the source of that name. */
  lemma FeedbackAddressReachesItsFilters(sources: seq<Source>, s: nat, name: string)
    requires UniqueNames(sources) && s < |sources| && Addressable(sources[s].name, name) && '/' !in name
    requires !Glob.HasWildcard(sources[s].name) && !IndexSegment(name) && !Glob.HasWildcard(name)
    ensures Dispatched(FilterFor(sources[s].name, name)) == Command(FilterEnabled(sources[s].name, name))
    ensures VisitFiltersOf(sources, sources[s].name, name) == FiltersNamed(sources[s], name)
  {
    FilterAddressDispatchesIff(sources[s].name, name);
    assert ByName(sources, sources[s].name) == s;
    FiltersOfOwnName(sources[s], name, 0);
  }
}
