/**
  The router (src/httprouter.c): route bindings live in a chain of packs of thirty, the first pack inside the
  router, with a pointer to the tail.  The chain refines a flat list of bindings that only grows at its end.
 */
module Router {
  import opened Prelude

  const ROUTE_BASE_LEN := 14
  const ROUTE_GROUP_LEN := 30
  const ROUTE_MAX_LEN := 1023
  const INT_MAX := 0x7FFF_FFFF

  type Container = nat

  datatype MatchMode = MatchFirst | MatchLongest

  /** What a binding means. */
  datatype Bound = Bound(route: string, container: Container)

  /**
    A binding as stored: a short route is copied, with its terminator, into the fourteen bytes inside the
    binding, a longer one into memory of its own.
   */
  datatype Storage = Inline(name: seq<char>) | Heap(text: seq<char>) {
    function Bytes(): seq<char> {
      match this case Inline(name) => name case Heap(text) => text
    }
  }

  datatype RouteBinding = RouteBinding(route: Storage, routeLen: nat, container: Container) {
    /** The stored bytes are the route followed by its terminator, within the storage. */
    ghost predicate Means(b: Bound) {
      && routeLen == |b.route| <= ROUTE_MAX_LEN && container == b.container
      && NUL !in b.route
      && routeLen < |route.Bytes()|
      && route.Bytes()[..routeLen] == b.route && route.Bytes()[routeLen] == NUL
      && (route.Inline? <==> routeLen < ROUTE_BASE_LEN)
      && (route.Inline? ==> |route.name| == ROUTE_BASE_LEN)
    }
  }

  /** strcpy into the zeroed bytes inside the binding. */
  function StringCopy(bytes: seq<char>, route: string): (r: seq<char>)
    requires |route| < |bytes|
    ensures |r| == |bytes| && r[..|route|] == route && r[|route|] == NUL
  {
    route + [NUL] + bytes[|route| + 1..]
  }

  function Zeros(n: nat): (r: seq<char>)
    ensures |r| == n
  {
    seq(n, _ => NUL)
  }

  datatype RoutePack = RoutePack(bindings: seq<RouteBinding>, next: Address, bindingNum: nat)

  const EMPTY_BINDING := RouteBinding(Heap([]), 0, 0)

  /** A pack fresh from memory_create. */
  function EmptyPack(): (r: RoutePack)
    ensures |r.bindings| == ROUTE_GROUP_LEN && r.next == NULL && r.bindingNum == 0
  {
    RoutePack(seq(ROUTE_GROUP_LEN, _ => EMPTY_BINDING), NULL, 0)
  }

  /** `chain` lists the packs from the first on; only the tail, which `last` points at, may have room. */
  ghost predicate Chained(memory: map<Address, RoutePack>, chain: seq<Address>, last: Address) {
    && |chain| > 0 && chain[0] == FIRST && last == chain[|chain| - 1]
    && (forall i :: 0 <= i < |chain| ==> chain[i] in memory && chain[i] != NULL)
    && (forall i, j :: 0 <= i < j < |chain| ==> chain[i] != chain[j])
    && (forall i, j :: 0 <= i && j == i + 1 < |chain| ==> memory[chain[i]].next == chain[j])
    && memory[last].next == NULL
    && (forall i :: 0 <= i < |chain| ==> |memory[chain[i]].bindings| == ROUTE_GROUP_LEN)
    && (forall i :: 0 <= i < |chain| - 1 ==> memory[chain[i]].bindingNum == ROUTE_GROUP_LEN)
    && (|chain| > 1 ==> memory[last].bindingNum > 0)
    && memory[last].bindingNum <= ROUTE_GROUP_LEN
  }

  /** The bindings, pack after pack, mean the flat list. */
  ghost predicate Holds(memory: map<Address, RoutePack>, chain: seq<Address>, last: Address, flat: seq<Bound>)
    requires Chained(memory, chain, last)
  {
    && |flat| == ROUTE_GROUP_LEN * (|chain| - 1) + memory[last].bindingNum
    && (forall i, j :: 0 <= i < |chain| && 0 <= j < memory[chain[i]].bindingNum ==>
          memory[chain[i]].bindings[j].Means(flat[ROUTE_GROUP_LEN * i + j]))
  }

  /** Where the pack inside the router lives. */
  const FIRST: Address := 1

  function Stored(route: string): (s: Storage)
    ensures |route| < |s.Bytes()| && s.Bytes()[..|route|] == route && s.Bytes()[|route|] == NUL
    ensures s.Inline? <==> |route| < ROUTE_BASE_LEN
    ensures s.Inline? ==> |s.name| == ROUTE_BASE_LEN
  {
    if |route| < ROUTE_BASE_LEN then Inline(StringCopy(Zeros(ROUTE_BASE_LEN), route)) else Heap(route + [NUL])
  }

  function Appended(pack: RoutePack, route: string, container: Container): RoutePack
    requires pack.bindingNum < |pack.bindings|
  {
    pack.(bindings := pack.bindings[pack.bindingNum := RouteBinding(Stored(route), |route|, container)],
          bindingNum := pack.bindingNum + 1)
  }

  lemma AppendToTail(memory: map<Address, RoutePack>, chain: seq<Address>, last: Address, flat: seq<Bound>, route: string, container: Container)
    requires Chained(memory, chain, last) && Holds(memory, chain, last, flat)
    requires memory[last].bindingNum < ROUTE_GROUP_LEN && NUL !in route && |route| <= ROUTE_MAX_LEN
    ensures var memory' := memory[last := Appended(memory[last], route, container)];
            Chained(memory', chain, last) && Holds(memory', chain, last, flat + [Bound(route, container)])
  {
    var memory', flat' := memory[last := Appended(memory[last], route, container)], flat + [Bound(route, container)];
    assert Chained(memory', chain, last);
    forall i, j | 0 <= i < |chain| && 0 <= j < memory'[chain[i]].bindingNum
      ensures memory'[chain[i]].bindings[j].Means(flat'[ROUTE_GROUP_LEN * i + j])
    {
      if i < |chain| - 1 || j < memory[last].bindingNum {
        assert memory[chain[i]].bindings[j].Means(flat[ROUTE_GROUP_LEN * i + j]);
      }
    }
  }

  /** The packs after a new one was linked behind the tail and got its first binding. */
  function Grown(memory: map<Address, RoutePack>, last: Address, a: Address, route: string, container: Container): map<Address, RoutePack>
    requires last in memory
  {
    memory[last := memory[last].(next := a)][a := Appended(EmptyPack(), route, container)]
  }

  lemma GrownIsChained(memory: map<Address, RoutePack>, chain: seq<Address>, last: Address, flat: seq<Bound>, a: Address, route: string, container: Container)
    requires Chained(memory, chain, last) && Holds(memory, chain, last, flat)
    requires memory[last].bindingNum == ROUTE_GROUP_LEN && NUL !in route && |route| <= ROUTE_MAX_LEN
    requires a != NULL && a !in memory
    ensures Chained(Grown(memory, last, a, route, container), chain + [a], a)
  {
  }

  lemma AppendNewPack(memory: map<Address, RoutePack>, chain: seq<Address>, last: Address, flat: seq<Bound>, a: Address, route: string, container: Container)
    requires Chained(memory, chain, last) && Holds(memory, chain, last, flat)
    requires memory[last].bindingNum == ROUTE_GROUP_LEN && NUL !in route && |route| <= ROUTE_MAX_LEN
    requires a != NULL && a !in memory
    ensures Chained(Grown(memory, last, a, route, container), chain + [a], a)
    ensures Holds(Grown(memory, last, a, route, container), chain + [a], a, flat + [Bound(route, container)])
  {
    GrownIsChained(memory, chain, last, flat, a, route, container);
    var memory', chain', flat' := Grown(memory, last, a, route, container), chain + [a], flat + [Bound(route, container)];
    forall i, j | 0 <= i < |chain'| && 0 <= j < memory'[chain'[i]].bindingNum
      ensures memory'[chain'[i]].bindings[j].Means(flat'[ROUTE_GROUP_LEN * i + j])
    {
      if i < |chain| {
        assert memory[chain[i]].bindings[j].Means(flat[ROUTE_GROUP_LEN * i + j]);
      }
    }
  }

  /** Some prefix of the URL is the whole route. */
  predicate Matches(b: Bound, url: string) {
    b.route <= url
  }

  ghost predicate IsFirstMatch(flat: seq<Bound>, url: string, k: int) {
    0 <= k < |flat| && Matches(flat[k], url) && forall j :: 0 <= j < k ==> !Matches(flat[j], url)
  }

  ghost predicate IsLastMatch(flat: seq<Bound>, url: string, k: int) {
    0 <= k < |flat| && Matches(flat[k], url) && forall j :: k < j < |flat| ==> !Matches(flat[j], url)
  }

  ghost predicate NoMatch(flat: seq<Bound>, url: string) {
    forall j :: 0 <= j < |flat| ==> !Matches(flat[j], url)
  }

  /** What the scan chooses: the binding at `at`, or the null container when `at` is -1. */
  ghost predicate IsChoice(flat: seq<Bound>, url: string, mode: MatchMode, at: int) {
    if at == -1 then NoMatch(flat, url)
    else if mode.MatchFirst? then IsFirstMatch(flat, url, at)
    else IsLastMatch(flat, url, at)
  }

  /** The container that the scan should end with. */
  ghost predicate Picks(flat: seq<Bound>, url: string, mode: MatchMode, nullContainer: Container, container: Container) {
    exists at :: IsChoice(flat, url, mode, at) && container == if at == -1 then nullContainer else flat[at].container
  }

  /** The length of the longest common prefix. */
  ghost function CommonPrefix(a: string, b: string): (n: nat)
    ensures n <= |a| && n <= |b| && a[..n] == b[..n]
    ensures n < |a| && n < |b| ==> a[n] != b[n]
  {
    if a == [] || b == [] || a[0] != b[0] then 0 else 1 + CommonPrefix(a[1..], b[1..])
  }

  /** A common prefix as long as the route is the route. */
  lemma CommonPrefixIsMatch(url: string, route: string)
    ensures CommonPrefix(url, route) >= |route| <==> route <= url
  {
  }

  /** All routes that match one URL are prefixes of one another, by length. */
  lemma MatchesFormChain(a: Bound, b: Bound, url: string)
    requires Matches(a, url) && Matches(b, url) && |a.route| <= |b.route|
    ensures a.route <= b.route
  {
    assert a.route == url[..|a.route|] && b.route == url[..|b.route|];
  }

  /** LONGEST mode finds a longest matching route for the URL. */
  ghost predicate LongestFor(flat: seq<Bound>, url: string) {
    forall k, j :: IsLastMatch(flat, url, k) && 0 <= j < |flat| && Matches(flat[j], url) ==> |flat[j].route| <= |flat[k].route|
  }

  /** No route is bound after a longer route that it is a prefix of, unless that longer route is bound again later. */
  ghost predicate OrderedForLongest(flat: seq<Bound>) {
    forall i, j :: 0 <= i < j < |flat| && flat[j].route < flat[i].route ==>
      exists k :: j < k < |flat| && flat[k].route == flat[i].route
  }

  lemma {:induction false} LastMatchExists(flat: seq<Bound>, url: string, i: nat) returns (k: nat)
    requires i < |flat| && Matches(flat[i], url)
    ensures IsLastMatch(flat, url, k) && k >= i
    decreases |flat| - i
  {
    if j :| i < j < |flat| && Matches(flat[j], url) {
      k := LastMatchExists(flat, url, j);
    } else {
      k := i;
    }
  }

  /** LONGEST mode is right for every URL exactly when the bindings are ordered for it. */
  lemma LongestExactly(flat: seq<Bound>)
    requires forall i :: 0 <= i < |flat| ==> NUL !in flat[i].route
    ensures (forall url :: NUL !in url ==> LongestFor(flat, url)) <==> OrderedForLongest(flat)
  {
    if OrderedForLongest(flat) {
      forall url, k, j | IsLastMatch(flat, url, k) && 0 <= j < |flat| && Matches(flat[j], url)
        ensures |flat[j].route| <= |flat[k].route|
      {
        if |flat[j].route| > |flat[k].route| {
          MatchesFormChain(flat[k], flat[j], url);
          assert false;
        }
      }
    }
    if forall url :: NUL !in url ==> LongestFor(flat, url) {
      forall i, j | 0 <= i < j < |flat| && flat[j].route < flat[i].route
        ensures exists k :: j < k < |flat| && flat[k].route == flat[i].route
      {
        var url := flat[i].route;
        var k := LastMatchExists(flat, url, j);
        assert LongestFor(flat, url) && Matches(flat[i], url);
        assert flat[k].route == url;
      }
    }
  }

  /** The smallest table on which LONGEST mode picks the shorter of two matching routes. */
  lemma LongestCanFail()
    ensures var flat := [Bound("/a/b", 1), Bound("/a", 2)];
            IsChoice(flat, "/a/b", MatchLongest, 1) && !LongestFor(flat, "/a/b")
  {
    var flat := [Bound("/a/b", 1), Bound("/a", 2)];
    assert IsLastMatch(flat, "/a/b", 1);
    assert Matches(flat[0], "/a/b");
  }

  /** The length of the common beginning of s1 and s2, reading at most n characters and s2 up to its terminator. */
  method Strmatch(s1: seq<char>, s2: seq<char>, n: nat, ghost end: nat) returns (count: nat)
    requires n <= |s1| && NUL !in s1[..n]
    requires end < |s2| && s2[end] == NUL && NUL !in s2[..end]
    ensures count == CommonPrefix(s1[..n], s2[..end])
  {
    count := 0;
    var left := n;
    while left > 0 && s1[count] == s2[count]
      invariant count + left == n
      invariant count <= end && s1[..count] == s2[..count]
    {
      assert s1[count] in s1[..n];
      left := left - 1;
      count := count + 1;
    }
    ghost var a, b := s1[..n], s2[..end];
    assert a[..count] == b[..count];
    assert count < n && count < end ==> a[count] != b[count];
    CommonPrefixUnique(a, b, count);
  }

  lemma {:induction false} CommonPrefixUnique(a: string, b: string, n: nat)
    requires n <= |a| && n <= |b| && a[..n] == b[..n]
    requires n < |a| && n < |b| ==> a[n] != b[n]
    ensures CommonPrefix(a, b) == n
    decreases n
  {
    if n > 0 {
      assert a[0] == a[..n][0] && b[0] == b[..n][0];
      assert a[1..][..n - 1] == a[..n][1..] && b[1..][..n - 1] == b[..n][1..];
      CommonPrefixUnique(a[1..], b[1..], n - 1);
    }
  }

  /** The scan up to position n: the last match so far, or the first match and the scan is over. */
  ghost predicate Scanned(flat: seq<Bound>, url: string, mode: MatchMode, n: int, found: bool, at: int) {
    && 0 <= n <= |flat|
    && if found then mode.MatchFirst? && IsFirstMatch(flat, url, at)
       else if mode.MatchFirst? then at == -1 && NoMatch(flat[..n], url)
       else IsChoice(flat[..n], url, mode, at)
  }

  lemma ScanStep(flat: seq<Bound>, url: string, mode: MatchMode, n: nat, at: int)
    requires n < |flat| && Scanned(flat, url, mode, n, false, at)
    ensures Matches(flat[n], url) ==> Scanned(flat, url, mode, n + 1, mode.MatchFirst?, n)
    ensures !Matches(flat[n], url) ==> Scanned(flat, url, mode, n + 1, false, at)
  {
    assert flat[..n + 1][..n] == flat[..n];
    assert forall j :: 0 <= j < n ==> flat[..n][j] == flat[j];
  }

  lemma ScanEnds(flat: seq<Bound>, url: string, mode: MatchMode, found: bool, at: int)
    ensures Scanned(flat, url, mode, 0, false, -1)
    ensures Scanned(flat, url, mode, |flat|, found, at) ==> IsChoice(flat, url, mode, at)
    ensures forall n :: Scanned(flat, url, mode, n, true, at) ==> IsChoice(flat, url, mode, at)
  {
    assert flat[..|flat|] == flat;
  }

  class HTTPRouter {
    var memory: map<Address, RoutePack>
    var nextAddress: Address
    var last: Address
    var starter: Option<Container>
    const nullContainer: Container
    const matchMode: MatchMode
    ghost var chain: seq<Address>
    ghost var flat: seq<Bound>

    ghost predicate Valid()
      reads this
    {
      && Chained(memory, chain, last) && Holds(memory, chain, last, flat)
      && nextAddress != NULL && forall a :: a in memory ==> a < nextAddress
    }

    constructor (nullContainer: Container, matchMode: MatchMode)
      ensures Valid() && flat == [] && starter == None
      ensures this.nullContainer == nullContainer && this.matchMode == matchMode
    {
      memory, nextAddress, last := map[FIRST := EmptyPack()], FIRST + 1, FIRST;
      starter := None;
      this.nullContainer, this.matchMode := nullContainer, matchMode;
      chain, flat := [FIRST], [];
    }

    method SetDefaultContainer(container: Container)
      modifies `starter
      ensures starter == Some(container)
    {
      starter := Some(container);
    }

    /** Binds in this pack if it has room, otherwise in a new pack after it; answers the pack used. */
    method RoutePackBind(pack: Address, route: string, container: Container) returns (used: Address)
      requires pack in memory && |memory[pack].bindings| == ROUTE_GROUP_LEN && memory[pack].bindingNum <= ROUTE_GROUP_LEN
      requires forall a :: a in memory ==> a < nextAddress
      modifies `memory, `nextAddress
      ensures if old(memory)[pack].bindingNum < ROUTE_GROUP_LEN then
                && used == pack && nextAddress == old(nextAddress)
                && memory == old(memory)[pack := Appended(old(memory)[pack], route, container)]
              else
                && used == old(nextAddress) && nextAddress == used + 1
                && memory == old(memory)[pack := old(memory)[pack].(next := used)][used := Appended(EmptyPack(), route, container)]
      decreases memory[pack].bindingNum
    {
      if memory[pack].bindingNum == ROUTE_GROUP_LEN {
        var next := nextAddress;
        nextAddress := nextAddress + 1;
        memory := memory[next := EmptyPack()];
        memory := memory[pack := memory[pack].(next := next)];
        used := RoutePackBind(next, route, container);
      } else {
        memory := memory[pack := Appended(memory[pack], route, container)];
        used := pack;
      }
    }

    /** Answers false exactly when the route is too long, as the source's -1. */
    method Bind(route: string, container: Container) returns (ok: bool)
      requires Valid() && NUL !in route
      modifies `memory, `nextAddress, `last, `chain, `flat
      ensures Valid()
      ensures ok <==> |route| <= ROUTE_MAX_LEN
      ensures flat == if ok then old(flat) + [Bound(route, container)] else old(flat)
    {
      hide Chained, Holds, Appended;
      if |route| > ROUTE_MAX_LEN {
        return false;
      }
      ok := true;
      TailFacts(memory, chain, last);
      ghost var tail := memory[last];
      if tail.bindingNum < ROUTE_GROUP_LEN {
        AppendToTail(memory, chain, last, flat, route, container);
      } else {
        AppendNewPack(memory, chain, last, flat, nextAddress, route, container);
        chain := chain + [nextAddress];
      }
      last := RoutePackBind(last, route, container);
      flat := flat + [Bound(route, container)];
    }

    /** Whether the URL agrees with the stored route over the route's whole length. */
    method Covers(buffer: string, uri: MemoryRange, binding: RouteBinding, ghost b: Bound) returns (matched: bool)
      requires uri.offset + uri.length <= |buffer| && uri.length <= INT_MAX
      requires NUL !in buffer[uri.offset..uri.offset + uri.length]
      requires binding.Means(b)
      ensures matched <==> Matches(b, buffer[uri.offset..uri.offset + uri.length])
      ensures binding.container == b.container
    {
      ghost var url := buffer[uri.offset..uri.offset + uri.length];
      assert buffer[uri.offset..][..uri.length] == url;
      var current := Strmatch(buffer[uri.offset..], binding.route.Bytes(), uri.length, binding.routeLen);
      CommonPrefixIsMatch(url, b.route);
      matched := current >= binding.routeLen;
    }

    /** The two nested scan loops over packs and their bindings. */
    method Select(buffer: string, uri: MemoryRange) returns (container: Container)
      requires Valid()
      requires uri.offset + uri.length <= |buffer| && uri.length <= INT_MAX
      requires NUL !in buffer[uri.offset..uri.offset + uri.length]
      ensures Picks(flat, buffer[uri.offset..uri.offset + uri.length], matchMode, nullContainer, container)
    {
      hide RouteBinding.Means, CommonPrefix, Chained, Holds, Scanned, IsChoice;
      TailFacts(memory, chain, last);
      ghost var url := buffer[uri.offset..uri.offset + uri.length];
      container := nullContainer;
      ghost var at := -1;
      var found := false;
      var pack := FIRST;
      ghost var p, k := 0, 0;
      ScanEnds(flat, url, matchMode, false, -1);
      while !found && pack != NULL
        invariant p <= |chain| && (!found ==> pack == if p < |chain| then chain[p] else NULL)
        invariant k <= |flat| && (!found ==> k == if p < |chain| then ROUTE_GROUP_LEN * p else |flat|)
        invariant Scanned(flat, url, matchMode, k, found, at)
        invariant -1 <= at < |flat| && container == if at == -1 then nullContainer else flat[at].container
        decreases |chain| - p, !found
      {
        PackFacts(memory, chain, last, flat, p);
        var i := 0;
        while !found && i < memory[pack].bindingNum
          invariant i <= memory[pack].bindingNum && k == ROUTE_GROUP_LEN * p + i
          invariant Scanned(flat, url, matchMode, k, found, at)
          invariant -1 <= at < |flat| && container == if at == -1 then nullContainer else flat[at].container
        {
          var binding := memory[pack].bindings[i];
          var matched := Covers(buffer, uri, binding, flat[k]);
          ScanStep(flat, url, matchMode, k, at);
          if matched {
            container, at := binding.container, k;
            if matchMode == MatchFirst {
              found := true;
            }
          }
          i := i + 1;
          k := k + 1;
        }
        pack := memory[pack].next;
        p := p + 1;
      }
      if p < |chain| {
        PackFacts(memory, chain, last, flat, p);
      }
      ScanEnds(flat, url, matchMode, found, at);
      assert IsChoice(flat, url, matchMode, at);
    }

    /**
      The default container is asked first and is the only one asked if it answers 0; otherwise the chosen
      container is asked and its answer returned.  `outcome` says what each container would answer.
     */
    method Serve(buffer: string, uri: MemoryRange, outcome: Container -> int) returns (ret: int, asked: seq<Container>)
      requires Valid()
      requires uri.offset + uri.length <= |buffer| && uri.length <= INT_MAX
      requires NUL !in buffer[uri.offset..uri.offset + uri.length]
      ensures starter.Some? && outcome(starter.value) == 0 ==> ret == 0 && asked == [starter.value]
      ensures starter == None || outcome(starter.value) != 0 ==>
        && |asked| > 0
        && var container := asked[|asked| - 1];
           && Picks(flat, buffer[uri.offset..uri.offset + uri.length], matchMode, nullContainer, container)
           && asked == (if starter.Some? then [starter.value] else []) + [container] && ret == outcome(container)
    {
      hide Chained, Holds, Picks;
      asked := [];
      if starter.Some? {
        ret := outcome(starter.value);
        asked := asked + [starter.value];
        if ret == 0 {
          return;
        }
      }
      var container := Select(buffer, uri);
      assert asked == if starter.Some? then [starter.value] else [];
      ret := outcome(container);
      asked := asked + [container];
    }
  }

  lemma PackFacts(memory: map<Address, RoutePack>, chain: seq<Address>, last: Address, flat: seq<Bound>, p: nat)
    requires Chained(memory, chain, last) && Holds(memory, chain, last, flat) && p < |chain|
    ensures chain[p] in memory && chain[p] != NULL
    ensures var pack := memory[chain[p]];
      && pack.next == (if p + 1 < |chain| then chain[p + 1] else NULL)
      && |pack.bindings| == ROUTE_GROUP_LEN && pack.bindingNum <= ROUTE_GROUP_LEN
      && ROUTE_GROUP_LEN * p + pack.bindingNum == (if p + 1 < |chain| then ROUTE_GROUP_LEN * (p + 1) else |flat|)
      && ROUTE_GROUP_LEN * p + pack.bindingNum <= |flat|
      && forall j :: 0 <= j < pack.bindingNum ==> pack.bindings[j].Means(flat[ROUTE_GROUP_LEN * p + j])
  {
  }

  lemma TailFacts(memory: map<Address, RoutePack>, chain: seq<Address>, last: Address)
    requires Chained(memory, chain, last)
    ensures |chain| > 0 && chain[0] == FIRST
    ensures last in memory && |memory[last].bindings| == ROUTE_GROUP_LEN && memory[last].bindingNum <= ROUTE_GROUP_LEN
  {
  }
}
