/** What an address means, written down independently of the order in which `osc_dispatch_command` of
    src/osc-controls.cpp tries its branches and of how it splits: the dispatcher decides exactly that. */
module RouteMeanings {
  import opened Bytes
  import opened Routing

  // ---- the reference ---------------------------------------------------------

  /** A name that can stand in the middle of an address. */
  predicate Segment(s: string) {
    s != "" && '/' !in s
  }

  /** A segment, a slash, and something behind it. */
  ghost predicate TwoSegments(s: string) {
    exists first, second :: IsTwo(s, first, second)
  }

  predicate IsTwo(s: string, first: string, second: string) {
    s == first + "/" + second && Segment(first) && second != ""
  }

  ghost predicate ThreeSegments(s: string) {
    exists first, rest :: IsTwo(s, first, rest) && TwoSegments(rest)
  }

  /** `a` is the prefix with `rest` behind it. */
  predicate Under(a: string, prefix: string, rest: string) {
    rest != "" && a == prefix + rest
  }

  /** A known prefix with something behind it that cannot be taken apart as it should. */
  ghost predicate Broken(a: string) {
    exists rest :: BrokenAt(a, rest)
  }

  ghost predicate BrokenAt(a: string, rest: string) {
    || (InPairs(a, rest) && !TwoSegments(rest))
    || (Under(a, "/transform/", rest) && !ThreeSegments(rest))
  }

  /** Behind one of the prefixes that need two segments; of a filter, the second may split again. */
  predicate InPairs(a: string, rest: string) {
    || Under(a, "/media/", rest) || Under(a, "/visible/", rest) || Under(a, "/locked/", rest)
    || Under(a, "/order/", rest) || Under(a, "/filter/", rest)
  }

  /** What every address is for. */
  ghost predicate Means(a: string, route: Route) {
    match route
    case Studio => a == "/studio"
    case TriggerTransition => a == "/transition" || a == "/transition/go"
    case SelectTransition(name) => Under(a, "/transition/", name) && name != "go"
    case ProgramIndex(index) => Under(a, "/program/index/", index)
    case Program(name) => Under(a, "/program/", name) && !("index/" < name)
    case Preview(name) => Under(a, "/preview/", name)
    case Output(base, sub) =>
      && (base == "/stream" || base == "/record" || base == "/replay" || base == "/virtualcam")
      && ((a == base && sub == "") || a == base + "/" + sub)
    case Screenshot => a == "/screenshot"
    case Mute(pattern) => Under(a, "/mute/", pattern)
    case Volume(name) => Under(a, "/volume/", name)
    case Decibel(name) => Under(a, "/db/", name)
    case Media(name, verb) => Segment(name) && verb != "" && a == "/media/" + (name + "/" + verb)
    case ItemFlag(flag, scene, item) =>
      Segment(scene) && item != "" && a == (if flag == Visible then "/visible/" else "/locked/") + (scene + "/" + item)
    case ItemOrder(scene, item) => Segment(scene) && item != "" && a == "/order/" + (scene + "/" + item)
    case FilterParameter(source, selector, param) =>
      && Segment(source) && Segment(selector) && param != ""
      && a == "/filter/" + (source + "/" + (selector + "/" + param))
    case FilterEnabled(source, selector) =>
      && Segment(source) && selector != "" && !TwoSegments(selector)
      && a == "/filter/" + (source + "/" + selector)
    case Transform(scene, item, field) =>
      && Segment(scene) && Segment(item) && field != ""
      && a == "/transform/" + (scene + "/" + (item + "/" + field))
    case Hotkey(name) => Under(a, "/hotkey/", name)
    case Profile(name) => Under(a, "/profile/", name)
    case Collection(name) => Under(a, "/collection/", name)
    case Malformed => Broken(a)
    case Unhandled => false
  }

  // ---- taking apart ----------------------------------------------------------

  lemma SplitIs(s: string)
    ensures match SplitTwo(s)
            case Split(first, second) => IsTwo(s, first, second)
            case NoSplit => !TwoSegments(s)
  {
    var i := FirstSlash(s);
    match SplitTwo(s)
    case Split(first, second) =>
      assert s == s[..i] + "/" + s[i + 1..];
    case NoSplit =>
      if TwoSegments(s) {
        var first, second :| IsTwo(s, first, second);
        SplitsJoined(first, second);
      }
  }

  lemma SplitOf(s: string, first: string, second: string)
    requires IsTwo(s, first, second)
    ensures SplitTwo(s) == Split(first, second) && TwoSegments(s)
  {
    SplitsJoined(first, second);
  }

  lemma NoSplitOf(s: string)
    requires !TwoSegments(s)
    ensures SplitTwo(s) == NoSplit
  {
    SplitIs(s);
  }

  lemma TailIs(a: string, prefix: string)
    ensures Tail(a, prefix).Some? ==> Under(a, prefix, Tail(a, prefix).value)
  {
  }

  // ---- from the decision to the meaning --------------------------------------

  /** The branch that takes an address, if one does. */
  lemma {:induction false} BranchTaking(a: string, branches: seq<Prefixed>, i: nat) returns (k: nat, rest: string)
    requires i <= |branches|
    ensures i <= k <= |branches|
    ensures k < |branches| ==>
              Under(a, branches[k].prefix, rest) && BranchRoute(a, branches, i) == Taken(branches[k].branch, rest)
    ensures k == |branches| ==> BranchRoute(a, branches, i) == Unhandled
    decreases |branches| - i
  {
    if i == |branches| {
      k, rest := i, "";
    } else {
      TailIs(a, branches[i].prefix);
      match Tail(a, branches[i].prefix)
      case Some(r) => k, rest := i, r;
      case None => k, rest := BranchTaking(a, branches, i + 1);
    }
  }

  lemma PairMeans(a: string, prefix: string, rest: string, branch: Branch)
    requires Under(a, prefix, rest)
    requires (prefix == "/media/" && branch == MediaBranch) || (prefix == "/visible/" && branch == VisibleBranch)
             || (prefix == "/locked/" && branch == LockedBranch) || (prefix == "/order/" && branch == OrderBranch)
    ensures Means(a, Taken(branch, rest))
  {
    SplitIs(rest);
    if SplitTwo(rest) == NoSplit {
      assert BrokenAt(a, rest);
    }
  }

  lemma FilterMeans(a: string, rest: string)
    requires Under(a, "/filter/", rest)
    ensures Means(a, FilterRoute(rest))
  {
    SplitIs(rest);
    match SplitTwo(rest)
    case NoSplit => assert BrokenAt(a, rest);
    case Split(source, rest2) => SplitIs(rest2);
  }

  lemma TransformMeans(a: string, rest: string)
    requires Under(a, "/transform/", rest)
    ensures Means(a, TransformRoute(rest))
  {
    SplitIs(rest);
    match SplitTwo(rest)
    case NoSplit =>
      assert !ThreeSegments(rest);
      assert BrokenAt(a, rest);
    case Split(scene, remainder) =>
      SplitIs(remainder);
      if SplitTwo(remainder) == NoSplit {
        NotThree(rest, scene, remainder);
        assert BrokenAt(a, rest);
      }
  }

  lemma NotThree(s: string, first: string, rest: string)
    requires IsTwo(s, first, rest) && !TwoSegments(rest)
    ensures !ThreeSegments(s)
  {
    if ThreeSegments(s) {
      var f, r :| IsTwo(s, f, r) && TwoSegments(r);
      SplitOf(s, f, r);
      SplitOf(s, first, rest);
    }
  }

  lemma BranchMeans(a: string, k: nat, rest: string)
    requires k < |BRANCHES| && Under(a, BRANCHES[k].prefix, rest)
    ensures Means(a, Taken(BRANCHES[k].branch, rest))
  {
    BranchList();
    match BRANCHES[k].branch
    case MediaBranch => PairMeans(a, "/media/", rest, MediaBranch);
    case VisibleBranch => PairMeans(a, "/visible/", rest, VisibleBranch);
    case LockedBranch => PairMeans(a, "/locked/", rest, LockedBranch);
    case OrderBranch => PairMeans(a, "/order/", rest, OrderBranch);
    case FilterBranch => FilterMeans(a, rest);
    case TransformBranch => TransformMeans(a, rest);
    case _ =>
  }

  lemma {:induction false} OutputMeans(a: string, k: nat)
    requires k <= |OUTPUTS| && OutputRoute(a, k).Some?
    ensures Means(a, OutputRoute(a, k).value)
    decreases |OUTPUTS| - k
  {
    if k < |OUTPUTS| {
      match SubAction(a, OUTPUTS[k])
      case Some(sub) =>
        OutputNames(k);
        SubActionIs(a, OUTPUTS[k]);
      case None => OutputMeans(a, k + 1);
    }
  }

  lemma OutputNames(k: nat)
    requires k < |OUTPUTS|
    ensures OUTPUTS[k] == "/stream" || OUTPUTS[k] == "/record" || OUTPUTS[k] == "/replay" || OUTPUTS[k] == "/virtualcam"
  {
    assert OUTPUTS[0] == "/stream" && OUTPUTS[1] == "/record" && OUTPUTS[2] == "/replay" && OUTPUTS[3] == "/virtualcam";
  }

  lemma SubActionIs(a: string, base: string)
    requires SubAction(a, base).Some?
    ensures var sub := SubAction(a, base).value; (a == base && sub == "") || a == base + "/" + sub
  {
    if |a| == |base| {
      assert a == base;
    } else {
      assert a == a[..|base|] + "/" + a[|base| + 1..];
    }
  }

  /** The route of an address that the branches for transitions and scenes take. */
  lemma SceneMeans(a: string)
    requires "/" <= a && !PastScenes(a) && a != "/subscribe" && a != "/unsubscribe"
    ensures Dispatched(a).Command? && Means(a, Dispatched(a).route)
  {
    TailIs(a, "/transition/");
    TailIs(a, "/program/index/");
    TailIs(a, "/program/");
    TailIs(a, "/preview/");
    if Tail(a, "/program/").Some? {
      var name := Tail(a, "/program/").value;
      if "index/" < name {
        ProgramIndexTail(a, name);
      }
    }
  }

  /** The two prefixes of program addresses. */
  lemma ProgramIndexTail(a: string, name: string)
    requires a == "/program/" + name
    ensures "index/" < name <==> Tail(a, "/program/index/").Some?
    ensures "index/" < name ==> a == "/program/index/" + name[6..]
  {
    assert "/program/index/" == "/program/" + "index/";
    if "index/" < name {
      assert name == "index/" + name[6..];
      assert a == "/program/index/" + name[6..];
    }
    if Tail(a, "/program/index/").Some? {
      assert a == "/program/index/" + a[15..];
      assert name == a[9..] == "index/" + a[15..];
    }
  }

  lemma DispatchedMeans(a: string, route: Route)
    requires Goes(a, route) && route != Unhandled
    ensures Means(a, route)
  {
    GoesIff(a, route);
    if !PastScenes(a) {
      SceneMeans(a);
    } else {
      PastScenesDispatch(a);
      if OutputRoute(a).Some? {
        OutputMeans(a, 0);
      } else if a != "/screenshot" {
        var k, rest := BranchTaking(a, BRANCHES, 0);
        if k < |BRANCHES| {
          BranchMeans(a, k, rest);
        }
      }
    }
  }

  // ---- from the meaning to the decision --------------------------------------

  /** The address is dispatched to this route. Said of a decision that is looked at, so that what is known
      of one address does not set off working through the branches again. */
  ghost predicate Goes(a: string, route: Route) {
    forall d: Dispatch {:trigger LookedAt(d)} :: LookedAt(d) && d == Dispatched(a) ==> d == Command(route)
  }

  predicate LookedAt(d: Dispatch) {
    true
  }

  lemma GoesIff(a: string, route: Route)
    ensures Goes(a, route) <==> Dispatched(a) == Command(route)
  {
    assert LookedAt(Dispatched(a));
  }

  lemma BranchGoes(k: nat, prefix: string, branch: Branch, rest: string)
    requires k < |BRANCHES| && BRANCHES[k] == Prefixed(prefix, branch) && rest != ""
    ensures Goes(prefix + rest, Taken(branch, rest))
  {
    BranchDispatches(k, prefix, branch, rest);
    GoesIff(prefix + rest, Taken(branch, rest));
  }

  lemma OutputAddressesGo(k: nat, sub: string)
    requires k < |OUTPUTS|
    ensures Goes(OUTPUTS[k] + "/" + sub, Output(OUTPUTS[k], sub)) && Goes(OUTPUTS[k], Output(OUTPUTS[k], ""))
  {
    OutputAddressesDispatch(k, sub);
    GoesIff(OUTPUTS[k] + "/" + sub, Output(OUTPUTS[k], sub));
    GoesIff(OUTPUTS[k], Output(OUTPUTS[k], ""));
  }

  lemma StudioDispatches()
    ensures Goes("/studio", Studio)
    ensures Goes("/transition", TriggerTransition)
  {
    GoesIff("/studio", Studio);
    GoesIff("/transition", TriggerTransition);
  }

  lemma TransitionDispatches(name: string)
    requires name != ""
    ensures Goes("/transition/" + name, if name == "go" then TriggerTransition else SelectTransition(name))
  {
    var a := "/transition/" + name;
    NotUnder(a, "/transition/", "/studio", 1);
    NotUnder(a, "/transition/", "/subscribe", 1);
    NotUnder(a, "/transition/", "/unsubscribe", 1);
    TailOf("/transition/", name);
    GoesIff(a, if name == "go" then TriggerTransition else SelectTransition(name));
  }

  lemma ProgramDispatches(name: string)
    requires name != ""
    ensures "index/" < name ==> Goes("/program/" + name, ProgramIndex(name[6..]))
    ensures !("index/" < name) ==> Goes("/program/" + name, Program(name))
  {
    var a := "/program/" + name;
    NotUnder(a, "/program/", "/studio", 1);
    NotUnder(a, "/program/", "/transition", 1);
    NotUnder(a, "/program/", "/transition/", 1);
    NotUnder(a, "/program/", "/subscribe", 1);
    NotUnder(a, "/program/", "/unsubscribe", 1);
    TailOf("/program/", name);
    ProgramIndexTail(a, name);
    if "index/" < name {
      TailOf("/program/index/", name[6..]);
      GoesIff(a, ProgramIndex(name[6..]));
    } else {
      GoesIff(a, Program(name));
    }
  }

  lemma PreviewDispatches(name: string)
    requires name != ""
    ensures Goes("/preview/" + name, Preview(name))
  {
    var a := "/preview/" + name;
    NotUnder(a, "/preview/", "/studio", 1);
    NotUnder(a, "/preview/", "/transition", 1);
    NotUnder(a, "/preview/", "/transition/", 1);
    NotUnder(a, "/preview/", "/program/index/", 1);
    NotUnder(a, "/preview/", "/program/", 1);
    NotUnder(a, "/preview/", "/subscribe", 1);
    NotUnder(a, "/preview/", "/unsubscribe", 1);
    TailOf("/preview/", name);
    GoesIff(a, Preview(name));
  }

  lemma ScreenshotDispatches()
    ensures Goes("/screenshot", Screenshot)
  {
    var a := "/screenshot";
    NotScenes(a, a);
    assert OUTPUTS[0] == "/stream" && OUTPUTS[1] == "/record" && OUTPUTS[2] == "/replay" && OUTPUTS[3] == "/virtualcam";
    NoOutput(a, a, 0);
    PastScenesDispatch(a);
    GoesIff(a, Screenshot);
  }

  lemma SceneDispatches(a: string, route: Route)
    requires Means(a, route)
    requires route.Studio? || route.TriggerTransition? || route.SelectTransition? || route.ProgramIndex?
             || route.Program? || route.Preview? || route.Screenshot?
    ensures Goes(a, route)
  {
    match route
    case Studio => StudioDispatches();
    case TriggerTransition =>
      StudioDispatches();
      TransitionDispatches("go");
      assert "/transition/" + "go" == "/transition/go";
    case SelectTransition(name) => TransitionDispatches(name);
    case ProgramIndex(index) =>
      assert a == "/program/" + ("index/" + index);
      ProgramDispatches("index/" + index);
      assert ("index/" + index)[6..] == index;
    case Program(name) => ProgramDispatches(name);
    case Preview(name) => PreviewDispatches(name);
    case Screenshot => ScreenshotDispatches();
  }

  lemma OutputDispatches(a: string, base: string, sub: string)
    requires Means(a, Output(base, sub))
    ensures Goes(a, Output(base, sub))
  {
    assert OUTPUTS[0] == "/stream" && OUTPUTS[1] == "/record" && OUTPUTS[2] == "/replay" && OUTPUTS[3] == "/virtualcam";
    var k :| 0 <= k < |OUTPUTS| && OUTPUTS[k] == base;
    OutputAddressesGo(k, sub);
  }

  /** Branches that take what is behind their prefix as it is. */
  lemma PlainDispatches(a: string, route: Route)
    requires Means(a, route)
    requires route.Mute? || route.Volume? || route.Decibel? || route.Hotkey? || route.Profile? || route.Collection?
    ensures Goes(a, route)
  {
    match route
    case Mute(x) => MuteIs(x);
    case Volume(x) => VolumeIs(x);
    case Decibel(x) => DecibelIs(x);
    case Hotkey(x) => HotkeyIs(x);
    case Profile(x) => ProfileIs(x);
    case Collection(x) => CollectionIs(x);
  }

  lemma MuteIs(x: string)
    requires x != ""
    ensures Goes("/mute/" + x, Mute(x))
  {
    BranchList();
    BranchGoes(0, "/mute/", MuteBranch, x);
  }

  lemma VolumeIs(x: string)
    requires x != ""
    ensures Goes("/volume/" + x, Volume(x))
  {
    BranchList();
    BranchGoes(1, "/volume/", VolumeBranch, x);
  }

  lemma DecibelIs(x: string)
    requires x != ""
    ensures Goes("/db/" + x, Decibel(x))
  {
    BranchList();
    BranchGoes(2, "/db/", DecibelBranch, x);
  }

  lemma HotkeyIs(x: string)
    requires x != ""
    ensures Goes("/hotkey/" + x, Hotkey(x))
  {
    BranchList();
    BranchGoes(9, "/hotkey/", HotkeyBranch, x);
  }

  lemma ProfileIs(x: string)
    requires x != ""
    ensures Goes("/profile/" + x, Profile(x))
  {
    BranchList();
    BranchGoes(10, "/profile/", ProfileBranch, x);
  }

  lemma CollectionIs(x: string)
    requires x != ""
    ensures Goes("/collection/" + x, Collection(x))
  {
    BranchList();
    BranchGoes(11, "/collection/", CollectionBranch, x);
  }

  /** Branches that take two segments. */
  lemma MediaGoes(rest: string, name: string, verb: string)
    requires IsTwo(rest, name, verb)
    ensures Goes("/media/" + rest, Media(name, verb))
  {
    BranchList();
    SplitOf(rest, name, verb);
    BranchGoes(3, "/media/", MediaBranch, rest);
  }

  lemma ItemGoes(rest: string, scene: string, item: string)
    requires IsTwo(rest, scene, item)
    ensures Goes("/visible/" + rest, ItemFlag(Visible, scene, item))
    ensures Goes("/locked/" + rest, ItemFlag(Locked, scene, item))
    ensures Goes("/order/" + rest, ItemOrder(scene, item))
  {
    BranchList();
    SplitOf(rest, scene, item);
    BranchGoes(4, "/visible/", VisibleBranch, rest);
    BranchGoes(5, "/locked/", LockedBranch, rest);
    BranchGoes(6, "/order/", OrderBranch, rest);
  }

  lemma EnabledGoes(rest: string, source: string, selector: string)
    requires IsTwo(rest, source, selector) && !TwoSegments(selector)
    ensures Goes("/filter/" + rest, FilterEnabled(source, selector))
  {
    BranchList();
    SplitOf(rest, source, selector);
    NoSplitOf(selector);
    BranchGoes(7, "/filter/", FilterBranch, rest);
  }

  /** And three. */
  lemma ThreeGo(s: string, first: string, rest: string, second: string, third: string)
    requires IsTwo(s, first, rest) && IsTwo(rest, second, third)
    ensures Goes("/filter/" + s, FilterParameter(first, second, third))
    ensures Goes("/transform/" + s, Transform(first, second, third))
  {
    SplitOf(s, first, rest);
    SplitOf(rest, second, third);
    FilterGoes(s, FilterParameter(first, second, third));
    TransformGoes(s, Transform(first, second, third));
  }

  lemma FilterGoes(s: string, route: Route)
    requires s != "" && FilterRoute(s) == route
    ensures Goes("/filter/" + s, route)
  {
    BranchList();
    BranchGoes(7, "/filter/", FilterBranch, s);
  }

  lemma TransformGoes(s: string, route: Route)
    requires s != "" && TransformRoute(s) == route
    ensures Goes("/transform/" + s, route)
  {
    BranchList();
    BranchGoes(8, "/transform/", TransformBranch, s);
  }

  lemma BrokenDispatches(a: string)
    requires Broken(a)
    ensures Goes(a, Malformed)
  {
    if rest :| BrokenAt(a, rest) {
      if Under(a, "/transform/", rest) {
        BrokenTransform(rest);
      } else {
        NoSplitOf(rest);
        BrokenPair(a, rest);
      }
    }
  }

  lemma BrokenTransform(rest: string)
    requires rest != "" && !ThreeSegments(rest)
    ensures Goes("/transform/" + rest, Malformed)
  {
    BranchList();
    SplitIs(rest);
    if SplitTwo(rest).Split? {
      NotTwoBehind(rest, SplitTwo(rest).first, SplitTwo(rest).second);
    }
    BranchGoes(8, "/transform/", TransformBranch, rest);
  }

  lemma NotTwoBehind(s: string, first: string, rest: string)
    requires IsTwo(s, first, rest) && !ThreeSegments(s)
    ensures SplitTwo(rest) == NoSplit
  {
    SplitIs(rest);
  }

  lemma BrokenPair(a: string, rest: string)
    requires SplitTwo(rest) == NoSplit && InPairs(a, rest)
    ensures Goes(a, Malformed)
  {
    BranchList();
    if Under(a, "/media/", rest) {
      BranchGoes(3, "/media/", MediaBranch, rest);
    } else if Under(a, "/visible/", rest) {
      BranchGoes(4, "/visible/", VisibleBranch, rest);
    } else if Under(a, "/locked/", rest) {
      BranchGoes(5, "/locked/", LockedBranch, rest);
    } else if Under(a, "/order/", rest) {
      BranchGoes(6, "/order/", OrderBranch, rest);
    } else {
      BranchGoes(7, "/filter/", FilterBranch, rest);
    }
  }

  lemma MeaningDispatches(a: string, route: Route)
    requires Means(a, route)
    ensures Goes(a, route)
  {
    match route
    case Output(base, sub) => OutputDispatches(a, base, sub);
    case Mute(_) => PlainDispatches(a, route);
    case Volume(_) => PlainDispatches(a, route);
    case Decibel(_) => PlainDispatches(a, route);
    case Hotkey(_) => PlainDispatches(a, route);
    case Profile(_) => PlainDispatches(a, route);
    case Collection(_) => PlainDispatches(a, route);
    case Media(name, verb) => MediaGoes(name + "/" + verb, name, verb);
    case ItemFlag(_, scene, item) => ItemGoes(scene + "/" + item, scene, item);
    case ItemOrder(scene, item) => ItemGoes(scene + "/" + item, scene, item);
    case FilterParameter(source, selector, param) =>
      ThreeGo(source + "/" + (selector + "/" + param), source, selector + "/" + param, selector, param);
    case FilterEnabled(source, selector) => EnabledGoes(source + "/" + selector, source, selector);
    case Transform(scene, item, field) =>
      ThreeGo(scene + "/" + (item + "/" + field), scene, item + "/" + field, item, field);
    case Malformed => BrokenDispatches(a);
    case _ => SceneDispatches(a, route);
  }

  // ---- both ------------------------------------------------------------------

  /** The dispatcher decides for a route exactly when that is what the address means. */
  lemma DispatchesIffMeans(a: string, route: Route)
    requires route != Unhandled
    ensures Dispatched(a) == Command(route) <==> Means(a, route)
  {
    if Means(a, route) {
      MeaningDispatches(a, route);
      GoesIff(a, route);
    } else if Dispatched(a) == Command(route) {
      GoesIff(a, route);
      DispatchedMeans(a, route);
    }
  }

  /** What has no meaning is not handled; subscriptions and what is no address never get that far. */
  lemma OtherwiseUnhandled(a: string)
    ensures Dispatched(a) == Foreign <==> !("/" <= a)
    ensures forall u :: Dispatched(a) == Subscription(u) <==> a == if u then "/unsubscribe" else "/subscribe"
    ensures Dispatched(a) == Command(Unhandled) <==>
            "/" <= a && a != "/subscribe" && a != "/unsubscribe" && forall route :: !Means(a, route)
  {
    if Dispatched(a).Command? {
      if Dispatched(a).route == Unhandled {
        forall route ensures !Means(a, route) {
          if Means(a, route) {
            MeaningDispatches(a, route);
            GoesIff(a, route);
          }
        }
      } else {
        GoesIff(a, Dispatched(a).route);
        DispatchedMeans(a, Dispatched(a).route);
      }
    }
  }
}
