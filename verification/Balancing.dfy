/** Load balancing: which node a session of a service is sent to. */
module Balancing {
  import opened Entries
  import opened Octets

  // ---- Ordering nodes by age: ids grow with the time a node started ----

  predicate Before(newestFirst: bool, a: NodeEntry, b: NodeEntry) {
    if newestFirst then a.id > b.id else a.id < b.id
  }

  predicate StrictlySorted(newestFirst: bool, s: seq<NodeEntry>) {
    forall i, j :: 0 <= i < j < |s| ==> Before(newestFirst, s[i], s[j])
  }

  predicate DistinctIds(s: seq<NodeEntry>) {
    forall i, j :: 0 <= i < j < |s| ==> s[i].id != s[j].id
  }

  function Insert(newestFirst: bool, e: NodeEntry, s: seq<NodeEntry>): (r: seq<NodeEntry>)
    ensures multiset(r) == multiset{e} + multiset(s)
  {
    if s == [] || Before(newestFirst, e, s[0]) then [e] + s
    else
      var r := [s[0]] + Insert(newestFirst, e, s[1..]);
      assert s == [s[0]] + s[1..];
      r
  }

  /** The library sort, as a function of the list. */
  function Sort(newestFirst: bool, s: seq<NodeEntry>): (r: seq<NodeEntry>)
    ensures multiset(r) == multiset(s)
  {
    if s == [] then []
    else
      var r := Insert(newestFirst, s[0], Sort(newestFirst, s[1..]));
      assert s == [s[0]] + s[1..];
      r
  }

  lemma SameMembers(s: seq<NodeEntry>, t: seq<NodeEntry>, e: NodeEntry)
    requires multiset(s) == multiset(t)
    ensures |s| == |t|
    ensures e in s <==> e in t
  {
    assert |s| == |multiset(s)| && |t| == |multiset(t)|;
    assert e in s <==> e in multiset(s);
  }

  lemma {:induction false} InsertSorted(newestFirst: bool, e: NodeEntry, s: seq<NodeEntry>)
    requires StrictlySorted(newestFirst, s)
    requires forall x :: x in s ==> x.id != e.id
    ensures StrictlySorted(newestFirst, Insert(newestFirst, e, s))
  {
    if s != [] && !Before(newestFirst, e, s[0]) {
      var t := Insert(newestFirst, e, s[1..]);
      InsertSorted(newestFirst, e, s[1..]);
      forall j | 0 <= j < |t| ensures Before(newestFirst, s[0], t[j]) {
        SameMembers(t, [e] + s[1..], t[j]);
      }
    }
  }

  lemma {:induction false} SortSorted(newestFirst: bool, s: seq<NodeEntry>)
    requires DistinctIds(s)
    ensures StrictlySorted(newestFirst, Sort(newestFirst, s))
  {
    if s != [] {
      var t := Sort(newestFirst, s[1..]);
      SortSorted(newestFirst, s[1..]);
      forall x | x in t ensures x.id != s[0].id { SameMembers(t, s[1..], x); }
      InsertSorted(newestFirst, s[0], t);
    }
  }

  /** A strictly sorted list is determined by its members. */
  lemma {:induction false} SortedUnique(newestFirst: bool, s: seq<NodeEntry>, t: seq<NodeEntry>)
    requires StrictlySorted(newestFirst, s) && StrictlySorted(newestFirst, t)
    requires forall e :: e in s <==> e in t
    ensures s == t
  {
    assert t != [] ==> t[0] in t;
    if s != [] {
      assert s[0] in t && t[0] in s;
      assert s[0] == t[0];
      forall e ensures e in s[1..] <==> e in t[1..] {
        assert e in s <==> e in t;
      }
      SortedUnique(newestFirst, s[1..], t[1..]);
    }
  }

  lemma {:induction false} DistinctOnce(s: seq<NodeEntry>, e: NodeEntry)
    requires DistinctIds(s)
    ensures multiset(s)[e] <= 1
  {
    if s != [] {
      DistinctOnce(s[1..], e);
      assert s == [s[0]] + s[1..];
      if e == s[0] { assert e !in s[1..]; }
    }
  }

  lemma TwiceCounted(s: seq<NodeEntry>, i: nat, j: nat)
    requires i < j < |s| && s[i] == s[j]
    ensures multiset(s)[s[i]] >= 2
  {
    assert s == s[..j] + s[j..];
    assert s[j] == s[j..][0];
    assert s[i] == s[..j][i];
  }

  lemma DistinctPermutation(s: seq<NodeEntry>, t: seq<NodeEntry>)
    requires DistinctIds(s) && multiset(s) == multiset(t)
    ensures DistinctIds(t)
  {
    forall i, j | 0 <= i < j < |t| ensures t[i].id != t[j].id {
      SameMembers(s, t, t[i]);
      SameMembers(s, t, t[j]);
      DistinctOnce(s, t[i]);
      if t[i] == t[j] { TwiceCounted(t, i, j); }
    }
  }

  lemma SortIgnoresOrder(newestFirst: bool, s: seq<NodeEntry>, t: seq<NodeEntry>)
    requires DistinctIds(s) && multiset(s) == multiset(t)
    ensures Sort(newestFirst, s) == Sort(newestFirst, t)
  {
    DistinctPermutation(s, t);
    SortSorted(newestFirst, s);
    SortSorted(newestFirst, t);
    var a, b := Sort(newestFirst, s), Sort(newestFirst, t);
    forall e ensures e in a <==> e in b { SameMembers(a, b, e); }
    SortedUnique(newestFirst, a, b);
  }

  // ---- Building a balancer ----

  datatype PickError = NoNodeAvailable | NotImplemented(policy: string) | BadAddress | IndexOutOfRange

  datatype Weighted = Weighted(id: NodeId, weight: int)

  datatype Balancer =
    | Single(node: NodeEntry)
    | Failing(error: PickError)
    | Random(nodes: seq<NodeEntry>)
    | RoundRobin(weights: seq<Weighted>, sum: int)
    | IpHash(nodes: seq<NodeEntry>)
    | IdHash(nodes: seq<NodeEntry>)
    | Oldest(node: NodeEntry)
    | Newest(node: NodeEntry)

  /** Lower case, as far as it matters for names in ASCII: beside the capital letters only the dotted
      capital I and the Kelvin sign have an ASCII letter as their lower case. */
  function LowerChar(c: char): char {
    if 'A' <= c <= 'Z' then c - 'A' + 'a'
    else if c == '\U{0130}' then 'i'
    else if c == '\U{212A}' then 'k'
    else c
  }

  /** The lower-case form of the policy is this name. */
  predicate Lowers(policy: string, name: string) {
    |policy| == |name|
    && (policy == [] || (LowerChar(policy[0]) == name[0] && Lowers(policy[1..], name[1..])))
  }

  /** The first description of the service, if the node offers it. */
  function FirstDesc(services: seq<ServiceDesc>, code: int): Option<ServiceDesc> {
    if services == [] then None
    else if services[0].code == code then Some(services[0])
    else FirstDesc(services[1..], code)
  }

  /** The i-th description is the first one of the service. */
  predicate IsFirst(services: seq<ServiceDesc>, code: int, i: int) {
    0 <= i < |services| && services[i].code == code && forall j :: 0 <= j < i ==> services[j].code != code
  }

  lemma {:induction false} FirstDescExact(services: seq<ServiceDesc>, code: int)
    ensures FirstDesc(services, code).Some? <==> Names(services, code)
    ensures FirstDesc(services, code).Some? ==>
              exists i :: IsFirst(services, code, i) && services[i] == FirstDesc(services, code).value
  {
    if services != [] {
      var rest := services[1..];
      FirstDescExact(rest, code);
      if services[0].code == code {
        assert IsFirst(services, code, 0);
      } else if Names(services, code) {
        var i :| 0 <= i < |services| && services[i].code == code;
        assert rest[i - 1].code == code;
        var j :| IsFirst(rest, code, j) && rest[j] == FirstDesc(rest, code).value;
        assert IsFirst(services, code, j + 1);
      } else {
        assert forall i :: 0 <= i < |rest| ==> rest[i] == services[i + 1];
      }
    }
  }

  lemma FirstDescAt(services: seq<ServiceDesc>, code: int, i: int)
    requires IsFirst(services, code, i)
    ensures FirstDesc(services, code) == Some(services[i])
  {
    FirstDescExact(services, code);
    var j :| IsFirst(services, code, j) && services[j] == FirstDesc(services, code).value;
    assert i == j;
  }

  function Policy(e: NodeEntry, code: int): string {
    var d := FirstDesc(e.services, code);
    if d.Some? then d.value.balancer else ""
  }

  function Weight(d: ServiceDesc): (w: int)
    ensures w >= 10
  {
    (if d.weight <= 0 then 1 else d.weight) * 10
  }

  function Weigh(nodes: seq<NodeEntry>, code: int): seq<Weighted>
    decreases |nodes|
  {
    if nodes == [] then []
    else
      var n := |nodes| - 1;
      var d := FirstDesc(nodes[n].services, code);
      Weigh(nodes[..n], code) + if d.Some? then [Weighted(nodes[n].id, Weight(d.value))] else []
  }

  function Total(ws: seq<Weighted>): int
    decreases |ws|
  {
    if ws == [] then 0 else Total(ws[..|ws| - 1]) + ws[|ws| - 1].weight
  }

  /** Ten draws for every unit of weight, and at least ten. */
  function Share(weight: int): int { if weight <= 0 then 10 else 10 * weight }

  /** The weight entry that a node's first description of the service gives it. */
  predicate Entry(nodes: seq<NodeEntry>, code: int, j: int, k: int, w: Weighted) {
    && 0 <= j < |nodes| && IsFirst(nodes[j].services, code, k)
    && w == Weighted(nodes[j].id, Share(nodes[j].services[k].weight))
  }

  /** The list holds exactly the entries of the nodes that offer the service. */
  ghost predicate Weighs(nodes: seq<NodeEntry>, code: int, ws: seq<Weighted>) {
    forall w :: w in ws <==> exists j, k :: Entry(nodes, code, j, k, w)
  }

  lemma {:induction false} WeighExact(nodes: seq<NodeEntry>, code: int)
    ensures Weighs(nodes, code, Weigh(nodes, code))
    decreases |nodes|
  {
    if nodes != [] {
      WeighExact(nodes[..|nodes| - 1], code);
      forall w ensures w in Weigh(nodes, code) <==> exists j, k :: Entry(nodes, code, j, k, w) { WeighEntry(nodes, code, w); }
    }
  }

  lemma {:induction false} WeighEntry(nodes: seq<NodeEntry>, code: int, w: Weighted)
    requires nodes != [] && Weighs(nodes[..|nodes| - 1], code, Weigh(nodes[..|nodes| - 1], code))
    ensures w in Weigh(nodes, code) <==> exists j, k :: Entry(nodes, code, j, k, w)
  {
    var n := |nodes| - 1;
    var less, last := nodes[..n], nodes[n].services;
    assert w in Weigh(less, code) <==> exists j, k :: Entry(less, code, j, k, w);
    FirstDescExact(last, code);
    if j, k :| Entry(nodes, code, j, k, w) {
      if j < n { assert Entry(less, code, j, k, w); } else { FirstDescAt(last, code, k); }
    }
    if w in Weigh(less, code) {
      var j, k :| Entry(less, code, j, k, w);
      assert Entry(nodes, code, j, k, w);
    } else if w in Weigh(nodes, code) {
      var k :| IsFirst(last, code, k) && last[k] == FirstDesc(last, code).value;
      assert Entry(nodes, code, n, k, w);
    }
  }

  /** The weighted list and its sum, built by one loop over the nodes. */
  method BuildWeights(code: int, nodes: seq<NodeEntry>) returns (ws: seq<Weighted>, sum: int)
    ensures ws == Weigh(nodes, code) && Weighs(nodes, code, ws)
    ensures sum == Total(ws)
  {
    WeighExact(nodes, code);
    ws, sum := [], 0;
    for n := 0 to |nodes|
      invariant ws == Weigh(nodes[..n], code)
      invariant sum == Total(ws)
    {
      assert nodes[..n + 1][..n] == nodes[..n];
      var d := FirstDesc(nodes[n].services, code);
      if d.Some? {
        var w := Weighted(nodes[n].id, Weight(d.value));
        assert (ws + [w])[..|ws|] == ws;
        ws, sum := ws + [w], sum + w.weight;
      }
    }
    assert nodes[..|nodes|] == nodes;
  }

  datatype PolicyKind = AsRandom | AsRoundRobin | AsIpHash | AsIdHash | AsOldest | AsNewest | Unknown

  /** The registered policies; their names are compared without regard to case. */
  function Kind(policy: string): PolicyKind {
    if Lowers(policy, "random") then AsRandom
    else if Lowers(policy, "roundrobin") then AsRoundRobin
    else if Lowers(policy, "iphash") then AsIpHash
    else if Lowers(policy, "idhash") then AsIdHash
    else if Lowers(policy, "oldest") then AsOldest
    else if Lowers(policy, "newest") then AsNewest
    else Unknown
  }

  /** The same letter, as a capital or not; the dotted capital I and the Kelvin sign are capitals too. */
  predicate SameLetter(c: char, letter: char) {
    c == letter || c as int + 32 == letter as int || (letter == 'i' && c == '\U{0130}') || (letter == 'k' && c == '\U{212A}')
  }

  /** The text is this name letter for letter, up to case. */
  predicate Says(text: string, name: string) {
    |text| == |name| && forall k :: 0 <= k < |name| ==> SameLetter(text[k], name[k])
  }

  predicate LowerCase(name: string) {
    forall k :: 0 <= k < |name| ==> 'a' <= name[k] <= 'z'
  }

  lemma {:induction false} LowersSays(text: string, name: string)
    requires LowerCase(name)
    ensures Lowers(text, name) <==> Says(text, name)
  {
    if text != [] && |text| == |name| {
      LowersSays(text[1..], name[1..]);
      assert LowerChar(text[0]) == name[0] <==> SameLetter(text[0], name[0]) by { assert 'a' <= name[0] <= 'z'; }
      if Says(text, name) {
        forall k | 0 <= k < |name[1..]| ensures SameLetter(text[1..][k], name[1..][k]) {
          assert SameLetter(text[k + 1], name[k + 1]);
        }
      }
      if Lowers(text, name) {
        forall k | 0 <= k < |name| ensures SameLetter(text[k], name[k]) {
          if k > 0 { assert SameLetter(text[1..][k - 1], name[1..][k - 1]); }
        }
      }
    }
  }

  /** Each of the six names gives its own policy, and no other text gives any. */
  lemma KindExact(text: string)
    ensures Kind(text) == AsRandom <==> Says(text, "random")
    ensures Kind(text) == AsRoundRobin <==> Says(text, "roundrobin")
    ensures Kind(text) == AsIpHash <==> Says(text, "iphash")
    ensures Kind(text) == AsIdHash <==> Says(text, "idhash")
    ensures Kind(text) == AsOldest <==> Says(text, "oldest")
    ensures Kind(text) == AsNewest <==> Says(text, "newest")
  {
    LowersNames(text);
    OneName(text);
  }

  lemma LowersNames(text: string)
    ensures Lowers(text, "random") <==> Says(text, "random")
    ensures Lowers(text, "roundrobin") <==> Says(text, "roundrobin")
    ensures Lowers(text, "iphash") <==> Says(text, "iphash")
    ensures Lowers(text, "idhash") <==> Says(text, "idhash")
    ensures Lowers(text, "oldest") <==> Says(text, "oldest")
    ensures Lowers(text, "newest") <==> Says(text, "newest")
  {
    LowersSays(text, "random");
    LowersSays(text, "roundrobin");
    LowersSays(text, "iphash");
    LowersSays(text, "idhash");
    LowersSays(text, "oldest");
    LowersSays(text, "newest");
  }

  /** No text says two of the names. */
  lemma OneName(text: string)
    ensures Says(text, "random") ==> !Says(text, "iphash") && !Says(text, "idhash") && !Says(text, "oldest") && !Says(text, "newest")
    ensures Says(text, "iphash") ==> !Says(text, "idhash") && !Says(text, "oldest") && !Says(text, "newest")
    ensures Says(text, "idhash") ==> !Says(text, "oldest") && !Says(text, "newest")
    ensures Says(text, "oldest") ==> !Says(text, "newest")
    ensures Says(text, "roundrobin") ==> |text| == 10
  {
    Different(text, "random", "iphash", 0);
    Different(text, "random", "idhash", 0);
    Different(text, "random", "oldest", 0);
    Different(text, "random", "newest", 0);
    Different(text, "iphash", "idhash", 1);
    Different(text, "iphash", "oldest", 0);
    Different(text, "iphash", "newest", 0);
    Different(text, "idhash", "oldest", 0);
    Different(text, "idhash", "newest", 0);
    Different(text, "oldest", "newest", 0);
  }

  lemma Different(text: string, a: string, b: string, k: int)
    requires LowerCase(a) && LowerCase(b) && 0 <= k < |a| == |b| && a[k] != b[k]
    ensures !(Says(text, a) && Says(text, b))
  {
    assert 'a' <= a[k] <= 'z' && 'a' <= b[k] <= 'z';
    assert |text| == |a| ==> !(SameLetter(text[k], a[k]) && SameLetter(text[k], b[k]));
  }

  /** The first description of the service has this name as its policy. */
  ghost predicate Asks(e: NodeEntry, code: int, name: string) {
    exists i :: IsFirst(e.services, code, i) && Says(e.services[i].balancer, name)
  }

  lemma AsksText(e: NodeEntry, code: int, name: string)
    requires name != ""
    ensures Asks(e, code, name) <==> Says(Policy(e, code), name)
  {
    FirstDescExact(e.services, code);
    if Asks(e, code, name) {
      var i :| IsFirst(e.services, code, i) && Says(e.services[i].balancer, name);
      FirstDescAt(e.services, code, i);
    }
  }

  /** What the entry asks for is what it gets, and it gets nothing that it does not ask for. */
  lemma AskedKind(e: NodeEntry, code: int)
    ensures Asks(e, code, "random") <==> Kind(Policy(e, code)) == AsRandom
    ensures Asks(e, code, "roundrobin") <==> Kind(Policy(e, code)) == AsRoundRobin
    ensures Asks(e, code, "iphash") <==> Kind(Policy(e, code)) == AsIpHash
    ensures Asks(e, code, "idhash") <==> Kind(Policy(e, code)) == AsIdHash
    ensures Asks(e, code, "oldest") <==> Kind(Policy(e, code)) == AsOldest
    ensures Asks(e, code, "newest") <==> Kind(Policy(e, code)) == AsNewest
  {
    AsksText(e, code, "random");
    AsksText(e, code, "roundrobin");
    AsksText(e, code, "iphash");
    AsksText(e, code, "idhash");
    AsksText(e, code, "oldest");
    AsksText(e, code, "newest");
    KindExact(Policy(e, code));
  }

  /** The balancer of a policy for nodes already sorted newest first. */
  function Choose(kind: PolicyKind, code: int, sorted: seq<NodeEntry>): Balancer
    requires sorted != []
  {
    match kind
    case AsRandom => Random(sorted)
    case AsRoundRobin => RoundRobin(Weigh(sorted, code), Total(Weigh(sorted, code)))
    case AsIpHash => IpHash(sorted)
    case AsIdHash => IdHash(sorted)
    case AsOldest => Oldest(Sort(false, sorted)[0])
    case AsNewest => Newest(Sort(true, sorted)[0])
    case Unknown => Failing(NotImplemented(Policy(sorted[0], code)))
  }

  /** The newest node decides the policy. */
  function Build(code: int, nodes: seq<NodeEntry>): Balancer {
    if |nodes| == 0 then Failing(NoNodeAvailable)
    else if |nodes| == 1 then Single(nodes[0])
    else
      var sorted := Sort(true, nodes);
      Choose(Kind(Policy(sorted[0], code)), code, sorted)
  }

  /** Policy, lists and weights depend on the set of nodes only, not on the order in which the
      resolver happened to collect them. */
  lemma BuildIgnoresOrder(code: int, s: seq<NodeEntry>, t: seq<NodeEntry>)
    requires DistinctIds(s) && multiset(s) == multiset(t)
    ensures Build(code, s) == Build(code, t)
  {
    assert |s| == |multiset(s)| && |t| == |multiset(t)|;
    if |s| == 1 {
      SameMembers(s, t, s[0]);
    } else if |s| > 1 {
      SortIgnoresOrder(true, s, t);
    }
  }

  // ---- Picking ----

  const TWO_64 := 0x1_0000_0000_0000_0000
  const TWO_63 := 0x8000_0000_0000_0000

  /** Go's remainder takes the sign of the dividend. */
  function GoRem(a: int, n: int): (r: int)
    requires n > 0
  {
    if a >= 0 then a % n else -((-a) % n)
  }

  /** A 64-bit pattern read as a signed integer. */
  function Signed64(v: int): (r: int)
    ensures -TWO_63 <= r < TWO_63 && (v - r) % TWO_64 == 0
  {
    var low := v % TWO_64;
    if low < TWO_63 then low else low - TWO_64
  }

  /** A session as the balancers see it: the bytes of its address, when the address parses,
      and the 64-bit hash of its id. */
  datatype Session = Session(address: Option<seq<Octet>>, idHash: int)

  /** Indexing a slice outside its bounds stops the goroutine. */
  function PickIndex(nodes: seq<NodeEntry>, index: int): Result<NodeId, PickError> {
    if 0 <= index < |nodes| then Success(nodes[index].id) else Failure(IndexOutOfRange)
  }

  function PickWeighted(ws: seq<Weighted>, draw: int): Option<NodeId> {
    if ws == [] then None
    else if draw - ws[0].weight < 0 then Some(ws[0].id)
    else PickWeighted(ws[1..], draw - ws[0].weight)
  }

  /** How many values the random draw of this balancer ranges over. */
  function Draws(b: Balancer): int {
    match b
    case Random(nodes) => |nodes|
    case RoundRobin(_, sum) => sum
    case _ => 1
  }

  function Pick(b: Balancer, sess: Session, draw: int): Result<NodeId, PickError> {
    match b
    case Single(node) => Success(node.id)
    case Failing(error) => Failure(error)
    case Random(nodes) => PickIndex(nodes, draw)
    case RoundRobin(ws, _) =>
      var r := PickWeighted(ws, draw);
      if r.Some? then Success(r.value) else Failure(NoNodeAvailable)
    case IpHash(nodes) =>
      if sess.address.None? then Failure(BadAddress)
      else if nodes == [] then Failure(IndexOutOfRange)
      else PickIndex(nodes, GoRem(Signed64(BigEndian(sess.address.value)), |nodes|))
    case IdHash(nodes) =>
      if nodes == [] then Failure(IndexOutOfRange)
      else PickIndex(nodes, GoRem(Signed64(sess.idHash), |nodes|))
    case Oldest(node) => Success(node.id)
    case Newest(node) => Success(node.id)
  }

  method PickRoundRobin(ws: seq<Weighted>, draw: int) returns (r: Option<NodeId>)
    ensures r == PickWeighted(ws, draw)
  {
    var left := draw;
    for i := 0 to |ws|
      invariant PickWeighted(ws, draw) == PickWeighted(ws[i..], left)
    {
      left := left - ws[i].weight;
      if left < 0 { return Some(ws[i].id); }
    }
    return None;
  }

  // ---- Hash balancers ----

  /** The remainder leaves a multiple of n, is smaller than n, and has the sign of the dividend:
      there is only one such number. */
  lemma GoRemExact(a: int, n: int)
    requires n > 0
    ensures var r := GoRem(a, n); (a - r) % n == 0 && -n < r < n && (r > 0 ==> a > 0) && (r < 0 ==> a < 0)
  {
    if a >= 0 {
      assert a - GoRem(a, n) == (a / n) * n;
      MultipleRem(a / n, n);
    } else {
      assert a - GoRem(a, n) == -((-a) / n) * n;
      MultipleRem(-((-a) / n), n);
    }
  }

  /** The remainder is a valid index exactly when the hash is not negative or is a multiple
      of the number of nodes. */
  lemma HashInRange(hash: int, n: int)
    requires n > 0
    ensures 0 <= GoRem(hash, n) < n <==> hash >= 0 || hash % n == 0
  {
    if hash < 0 {
      var q, r := (-hash) / n, (-hash) % n;
      assert -hash == q * n + r;
      if r == 0 {
        assert hash == (-q) * n;
        MultipleRem(-q, n);
      } else {
        assert hash == (-q - 1) * n + (n - r);
        DivRem(-q - 1, n, n - r);
      }
    }
  }

  lemma DivRem(q: int, n: int, r: int)
    requires 0 <= r < n
    ensures (q * n + r) % n == r
  {
    var v := q * n + r;
    var d := v / n - q;
    assert v == (v / n) * n + v % n;
    assert d * n == r - v % n;
    MultipleSize(d, n);
  }

  lemma MultipleSize(d: int, n: int)
    requires n > 0
    ensures d >= 1 ==> d * n >= n
    ensures d <= -1 ==> d * n <= -n
  {
  }

  lemma MultipleRem(q: int, n: int)
    requires n > 0
    ensures (q * n) % n == 0
  {
    DivRem(q, n, 0);
  }

  /** An IPv4 client is always sent to some node of the list. */
  lemma Ipv4AlwaysPicks(nodes: seq<NodeEntry>, address: seq<Octet>, idHash: int, draw: int)
    requires nodes != [] && |address| == 4
    ensures var r := Pick(IpHash(nodes), Session(Some(address), idHash), draw);
            r.Success? && exists i :: 0 <= i < |nodes| && r.value == nodes[i].id
  {
    BigEndianUnique(address);
    FourBytes();
    HashInRange(BigEndian(address), |nodes|);
  }

  /** A hash balancer picks a node exactly when the signed hash value is not negative or is a
      multiple of the number of nodes; otherwise the index is out of range. */
  lemma IdHashPicksIff(nodes: seq<NodeEntry>, sess: Session, draw: int)
    requires nodes != []
    ensures Pick(IdHash(nodes), sess, draw).Success?
            <==> Signed64(sess.idHash) >= 0 || Signed64(sess.idHash) % |nodes| == 0
  {
    HashInRange(Signed64(sess.idHash), |nodes|);
  }

  lemma IpHashPicksIff(nodes: seq<NodeEntry>, sess: Session, draw: int)
    requires nodes != [] && sess.address.Some?
    ensures var hash := Signed64(BigEndian(sess.address.value));
            Pick(IpHash(nodes), sess, draw).Success? <==> hash >= 0 || hash % |nodes| == 0
  {
    HashInRange(Signed64(BigEndian(sess.address.value)), |nodes|);
  }

  /** A 16-byte address whose lower half is all ones reads as -1. */
  lemma LowerHalf(high: Bytes)
    ensures Signed64(BigEndian(high + Ones(8))) == -1
  {
    BigEndianAppend(high, Ones(8));
    OnesValue(8);
    EightBytes();
    DivRem(BigEndian(high), TWO_64, TWO_64 - 1);
  }

  /** With two nodes, a client of a /64 network whose address ends in all ones, such as
      2001:db8::ffff:ffff:ffff:ffff, gets no node from ipHash; nor does a session from idHash whose
      id hashes to all ones. */
  lemma HashCanFail(a: NodeEntry, b: NodeEntry, network: Bytes, idHash: int, draw: int)
    ensures Pick(IpHash([a, b]), Session(Some(network + Ones(8)), idHash), draw) == Failure(IndexOutOfRange)
    ensures Pick(IdHash([a, b]), Session(None, TWO_64 - 1), draw) == Failure(IndexOutOfRange)
  {
    LowerHalf(network);
    assert Signed64(TWO_64 - 1) == -1;
    assert GoRem(-1, 2) == -1;
  }

  // ---- Weighted share ----

  predicate AllOffer(nodes: seq<NodeEntry>, code: int) {
    forall i :: 0 <= i < |nodes| ==> Offers(nodes[i], code)
  }

  /** The one entry of a node in the weighted list. */
  lemma WeighOne(e: NodeEntry, code: int)
    requires Offers(e, code)
    ensures FirstDesc(e.services, code).Some? && Weight(FirstDesc(e.services, code).value) >= 10
    ensures forall k :: IsFirst(e.services, code, k) ==> Weight(FirstDesc(e.services, code).value) == Share(e.services[k].weight)
  {
    FirstDescExact(e.services, code);
    forall k | IsFirst(e.services, code, k) ensures FirstDesc(e.services, code).value == e.services[k] {
      FirstDescAt(e.services, code, k);
    }
  }

  lemma {:induction false} WeighAt(nodes: seq<NodeEntry>, code: int, i: nat)
    requires AllOffer(nodes, code) && i < |nodes|
    ensures |Weigh(nodes, code)| == |nodes| && FirstDesc(nodes[i].services, code).Some?
    ensures Weigh(nodes, code)[i] == Weighted(nodes[i].id, Weight(FirstDesc(nodes[i].services, code).value))
    decreases |nodes|
  {
    var n := |nodes| - 1;
    WeighOne(nodes[i], code);
    WeighOne(nodes[n], code);
    if n > 0 { WeighAt(nodes[..n], code, if i < n then i else 0); }
  }

  predicate PositiveWeights(ws: seq<Weighted>) {
    forall i :: 0 <= i < |ws| ==> ws[i].weight > 0
  }

  predicate DistinctTargets(ws: seq<Weighted>) {
    forall i, j :: 0 <= i < j < |ws| ==> ws[i].id != ws[j].id
  }

  lemma {:induction false} TotalHead(ws: seq<Weighted>)
    requires ws != []
    ensures Total(ws) == ws[0].weight + Total(ws[1..])
    decreases |ws|
  {
    var n := |ws| - 1;
    if n > 0 {
      TotalHead(ws[..n]);
      assert ws[..n][1..] == ws[1..][..n - 1];
      assert ws[1..][n - 1] == ws[n];
    }
  }

  lemma {:induction false} TotalPositive(ws: seq<Weighted>)
    requires PositiveWeights(ws)
    ensures Total(ws) >= 0 && (ws != [] ==> Total(ws) > 0)
    decreases |ws|
  {
    if ws != [] { TotalPositive(ws[..|ws| - 1]); }
  }

  /** The draws that select node `i` are one interval as long as its weight. */
  lemma {:induction false} PickInterval(ws: seq<Weighted>, i: nat, draw: int)
    requires PositiveWeights(ws) && DistinctTargets(ws) && i < |ws| && 0 <= draw
    ensures PickWeighted(ws, draw) == Some(ws[i].id)
            <==> Total(ws[..i]) <= draw < Total(ws[..i]) + ws[i].weight
    decreases |ws|
  {
    if i == 0 {
      if draw >= ws[0].weight { PickedIsMember(ws[1..], draw - ws[0].weight); }
    } else {
      assert ws[..i][0] == ws[0] && ws[..i][1..] == ws[1..][..i - 1];
      TotalHead(ws[..i]);
      TotalPositive(ws[1..][..i - 1]);
      if draw >= ws[0].weight { PickInterval(ws[1..], i - 1, draw - ws[0].weight); }
    }
  }

  lemma {:induction false} PickedIsMember(ws: seq<Weighted>, draw: int)
    ensures PickWeighted(ws, draw).Some? ==> exists i :: 0 <= i < |ws| && ws[i].id == PickWeighted(ws, draw).value
    decreases |ws|
  {
    if ws != [] && draw - ws[0].weight >= 0 {
      PickedIsMember(ws[1..], draw - ws[0].weight);
      if PickWeighted(ws[1..], draw - ws[0].weight).Some? {
        var i :| 0 <= i < |ws[1..]| && ws[1..][i].id == PickWeighted(ws, draw).value;
        assert ws[i + 1].id == PickWeighted(ws, draw).value;
      }
    }
  }

  lemma {:induction false} PickWithinSum(ws: seq<Weighted>, draw: int)
    requires 0 <= draw < Total(ws)
    ensures PickWeighted(ws, draw).Some?
    decreases |ws|
  {
    if ws != [] && draw >= ws[0].weight {
      TotalHead(ws);
      PickWithinSum(ws[1..], draw - ws[0].weight);
    }
  }

  ghost function Interval(lo: int, hi: int): (r: set<int>)
    requires lo <= hi
    ensures forall d :: d in r <==> lo <= d < hi
    ensures |r| == hi - lo
    decreases hi - lo
  {
    if lo == hi then {} else Interval(lo, hi - 1) + {hi - 1}
  }

  ghost function Selecting(ws: seq<Weighted>, id: NodeId): set<int> {
    set d: int | 0 <= d < Total(ws) && PickWeighted(ws, d) == Some(id)
  }

  lemma {:induction false} TotalPrefix(ws: seq<Weighted>, i: nat)
    requires PositiveWeights(ws) && i < |ws|
    ensures 0 <= Total(ws[..i]) && Total(ws[..i]) + ws[i].weight <= Total(ws)
    decreases |ws|
  {
    var n := |ws| - 1;
    if i < n {
      assert ws[..n][..i] == ws[..i];
      TotalPrefix(ws[..n], i);
    } else {
      TotalPositive(ws[..i]);
    }
  }

  lemma SelectingSize(ws: seq<Weighted>, i: nat)
    requires PositiveWeights(ws) && DistinctTargets(ws) && i < |ws|
    ensures |Selecting(ws, ws[i].id)| == ws[i].weight
  {
    var lo := Total(ws[..i]);
    TotalPrefix(ws, i);
    forall d ensures d in Selecting(ws, ws[i].id) <==> d in Interval(lo, lo + ws[i].weight) {
      if 0 <= d { PickInterval(ws, i, d); }
    }
    assert Selecting(ws, ws[i].id) == Interval(lo, lo + ws[i].weight);
  }

  /** Round robin: the sum is positive, every draw below it selects a node, and each node is
      selected by exactly ten times its weight (at least 1) of the draws, where the weight is that of
      the node's first description of the service. */
  lemma ExactShare(code: int, nodes: seq<NodeEntry>, i: nat, k: int)
    requires DistinctIds(nodes) && AllOffer(nodes, code) && i < |nodes| && IsFirst(nodes[i].services, code, k)
    ensures var ws := Weigh(nodes, code); var w := nodes[i].services[k].weight;
            && Total(ws) > 0
            && (forall d :: 0 <= d < Total(ws) ==> PickWeighted(ws, d).Some?)
            && |Selecting(ws, nodes[i].id)| == 10 * (if w <= 0 then 1 else w)
  {
    var ws := Weigh(nodes, code);
    forall j | 0 <= j < |nodes|
      ensures |ws| == |nodes| && ws[j].id == nodes[j].id && ws[j].weight >= 10
      ensures forall k :: IsFirst(nodes[j].services, code, k) ==> ws[j].weight == Share(nodes[j].services[k].weight)
    {
      WeighAt(nodes, code, j);
      WeighOne(nodes[j], code);
    }
    TotalPositive(ws);
    forall d | 0 <= d < Total(ws) ensures PickWeighted(ws, d).Some? { PickWithinSum(ws, d); }
    SelectingSize(ws, i);
  }

  // ---- Age policies ----

  predicate IsOldest(e: NodeEntry, nodes: seq<NodeEntry>) {
    e in nodes && forall i :: 0 <= i < |nodes| ==> e.id <= nodes[i].id
  }

  predicate IsNewest(e: NodeEntry, nodes: seq<NodeEntry>) {
    e in nodes && forall i :: 0 <= i < |nodes| ==> e.id >= nodes[i].id
  }

  lemma SortedHead(newestFirst: bool, nodes: seq<NodeEntry>)
    requires DistinctIds(nodes) && nodes != []
    ensures Sort(newestFirst, nodes) != []
    ensures var e := Sort(newestFirst, nodes)[0]; if newestFirst then IsNewest(e, nodes) else IsOldest(e, nodes)
  {
    var s := Sort(newestFirst, nodes);
    SortSorted(newestFirst, nodes);
    SameMembers(s, nodes, nodes[0]);
    SameMembers(s, nodes, s[0]);
    forall i | 0 <= i < |nodes| ensures nodes[i] == s[0] || Before(newestFirst, s[0], nodes[i]) {
      SameMembers(s, nodes, nodes[i]);
      var j :| 0 <= j < |s| && s[j] == nodes[i];
    }
  }

  lemma SortedByAge(nodes: seq<NodeEntry>, newest: NodeEntry)
    requires DistinctIds(nodes) && IsNewest(newest, nodes)
    ensures |Sort(true, nodes)| == |nodes| && Sort(true, nodes)[0] == newest
    ensures forall newestFirst :: Sort(newestFirst, Sort(true, nodes)) == Sort(newestFirst, nodes)
  {
    var s := Sort(true, nodes);
    SortedHead(true, nodes);
    SameMembers(s, nodes, newest);
    DistinctPermutation(nodes, s);
    forall newestFirst ensures Sort(newestFirst, s) == Sort(newestFirst, nodes) { SortIgnoresOrder(newestFirst, s, nodes); }
  }

  /** The newest node's own configuration decides the policy. */
  lemma BuildByAge(code: int, nodes: seq<NodeEntry>, newest: NodeEntry, sorted: seq<NodeEntry>, kind: PolicyKind)
    requires DistinctIds(nodes) && IsNewest(newest, nodes) && |nodes| > 1
    requires sorted == Sort(true, nodes) && kind == Kind(Policy(newest, code))
    ensures sorted != [] && Build(code, nodes) == Choose(kind, code, sorted)
  {
    SortedByAge(nodes, newest);
  }

  lemma PickByAge(kind: PolicyKind, code: int, sorted: seq<NodeEntry>, byAge: seq<NodeEntry>, sess: Session, draw: int)
    requires kind in {AsOldest, AsNewest} && sorted != [] && byAge == Sort(kind == AsNewest, sorted)
    ensures byAge != [] && Pick(Choose(kind, code, sorted), sess, draw) == Success(byAge[0].id)
  {
    SameMembers(byAge, sorted, sorted[0]);
  }

  /** Under the policy `oldest` every session gets the node that started first. */
  lemma OldestPolicy(code: int, nodes: seq<NodeEntry>, newest: NodeEntry, sess: Session, draw: int) returns (e: NodeEntry)
    requires DistinctIds(nodes) && IsNewest(newest, nodes)
    requires Asks(newest, code, "oldest")
    ensures IsOldest(e, nodes) && Pick(Build(code, nodes), sess, draw) == Success(e.id)
  {
    AskedKind(newest, code);
    if |nodes| == 1 {
      e := nodes[0];
    } else {
      var sorted, byAge := Sort(true, nodes), Sort(false, nodes);
      SortedHead(false, nodes);
      SortedByAge(nodes, newest);
      BuildByAge(code, nodes, newest, sorted, AsOldest);
      PickByAge(AsOldest, code, sorted, byAge, sess, draw);
      e := byAge[0];
    }
  }

  /** Under the policy `newest` every session gets the node that started last. */
  lemma NewestPolicy(code: int, nodes: seq<NodeEntry>, newest: NodeEntry, sess: Session, draw: int)
    requires DistinctIds(nodes) && IsNewest(newest, nodes)
    requires Asks(newest, code, "newest")
    ensures Pick(Build(code, nodes), sess, draw) == Success(newest.id)
  {
    AskedKind(newest, code);
    if |nodes| > 1 {
      var sorted := Sort(true, nodes);
      SortedByAge(nodes, newest);
      BuildByAge(code, nodes, newest, sorted, AsNewest);
      PickByAge(AsNewest, code, sorted, sorted, sess, draw);
    }
  }

  // ---- Policies that choose by position ----

  /** The nodes that started after this one. */
  ghost function Newer(nodes: seq<NodeEntry>, e: NodeEntry): set<NodeEntry> {
    set x | x in nodes && x.id > e.id
  }

  ghost function FirstOf(s: seq<NodeEntry>, k: nat): set<NodeEntry>
    requires k <= |s|
  {
    set i | 0 <= i < k :: s[i]
  }

  lemma {:induction false} FirstOfSize(s: seq<NodeEntry>, k: nat)
    requires StrictlySorted(true, s) && k <= |s|
    ensures |FirstOf(s, k)| == k
  {
    if k > 0 {
      FirstOfSize(s, k - 1);
      assert FirstOf(s, k) == FirstOf(s, k - 1) + {s[k - 1]};
      assert s[k - 1] !in FirstOf(s, k - 1);
    }
  }

  /** The node at a position of the list, newest first, has that many newer nodes. */
  lemma SortedPosition(nodes: seq<NodeEntry>, k: nat)
    requires DistinctIds(nodes) && k < |nodes|
    ensures |Sort(true, nodes)| == |nodes|
    ensures Sort(true, nodes)[k] in nodes && |Newer(nodes, Sort(true, nodes)[k])| == k
  {
    var s := Sort(true, nodes);
    SortSorted(true, nodes);
    SameMembers(s, nodes, nodes[0]);
    SameMembers(s, nodes, s[k]);
    forall x ensures x in Newer(nodes, s[k]) <==> x in FirstOf(s, k) {
      SameMembers(s, nodes, x);
      if x in s && x.id > s[k].id {
        var i :| 0 <= i < |s| && s[i] == x;
        assert i < k;
      }
    }
    assert Newer(nodes, s[k]) == FirstOf(s, k);
    FirstOfSize(s, k);
  }

  /** The pick is the node that has exactly so many newer ones. */
  ghost predicate PicksPosition(nodes: seq<NodeEntry>, r: Result<NodeId, PickError>, k: int) {
    exists e :: e in nodes && |Newer(nodes, e)| == k && r == Success(e.id)
  }

  lemma IndexPosition(nodes: seq<NodeEntry>, k: int)
    requires DistinctIds(nodes)
    ensures if 0 <= k < |nodes| then PicksPosition(nodes, PickIndex(Sort(true, nodes), k), k)
            else PickIndex(Sort(true, nodes), k) == Failure(IndexOutOfRange)
  {
    assert |Sort(true, nodes)| == |multiset(Sort(true, nodes))| == |multiset(nodes)|;
    if 0 <= k < |nodes| { SortedPosition(nodes, k); }
  }

  /** The kind of a balancer for two or more nodes is what the newest node asks for. */
  lemma BuildAsked(code: int, nodes: seq<NodeEntry>, newest: NodeEntry)
    requires DistinctIds(nodes) && IsNewest(newest, nodes) && |nodes| > 1
    ensures Asks(newest, code, "random") ==> Build(code, nodes) == Random(Sort(true, nodes))
    ensures Asks(newest, code, "iphash") ==> Build(code, nodes) == IpHash(Sort(true, nodes))
    ensures Asks(newest, code, "idhash") ==> Build(code, nodes) == IdHash(Sort(true, nodes))
    ensures Asks(newest, code, "roundrobin") ==>
              Build(code, nodes) == RoundRobin(Weigh(Sort(true, nodes), code), Total(Weigh(Sort(true, nodes), code)))
  {
    AskedKind(newest, code);
    BuildByAge(code, nodes, newest, Sort(true, nodes), Kind(Policy(newest, code)));
  }

  /** Under the policy `random` the k-th draw picks the node that has k newer ones. */
  lemma RandomPolicy(code: int, nodes: seq<NodeEntry>, newest: NodeEntry, sess: Session, draw: int)
    requires DistinctIds(nodes) && IsNewest(newest, nodes) && |nodes| > 1 && Asks(newest, code, "random")
    requires 0 <= draw < |nodes|
    ensures Draws(Build(code, nodes)) == |nodes|
    ensures PicksPosition(nodes, Pick(Build(code, nodes), sess, draw), draw)
  {
    BuildAsked(code, nodes, newest);
    IndexPosition(nodes, draw);
    assert |Sort(true, nodes)| == |multiset(Sort(true, nodes))| == |multiset(nodes)|;
  }

  /** Which node a hash value selects: the one with as many newer nodes as the remainder says, unless
      the value is negative and no multiple of the number of nodes. */
  ghost predicate PicksByHash(nodes: seq<NodeEntry>, r: Result<NodeId, PickError>, hash: int)
    requires nodes != []
  {
    if hash >= 0 || hash % |nodes| == 0 then PicksPosition(nodes, r, hash % |nodes|) else r == Failure(IndexOutOfRange)
  }

  lemma HashPosition(nodes: seq<NodeEntry>, hash: int)
    requires DistinctIds(nodes) && nodes != []
    ensures PicksByHash(nodes, PickIndex(Sort(true, nodes), GoRem(hash, |nodes|)), hash)
  {
    var n := |nodes|;
    HashInRange(hash, n);
    GoRemExact(hash, n);
    IndexPosition(nodes, GoRem(hash, n));
    if hash < 0 && hash % n == 0 { NoRemainder(hash, n); }
  }

  lemma NoRemainder(a: int, n: int)
    requires n > 0 && a < 0 && a % n == 0
    ensures GoRem(a, n) == 0
  {
    HashInRange(a, n);
    GoRemExact(a, n);
  }

  /** A 64-bit pattern as a signed number. */
  predicate IsSigned(v: int, h: int) { -TWO_63 <= h < TWO_63 && (v - h) % TWO_64 == 0 }

  lemma SignedUnique(v: int, h: int)
    requires IsSigned(v, h)
    ensures Signed64(v) == h
  {
    var r := Signed64(v);
    assert v - h == ((v - h) / TWO_64) * TWO_64 && v - r == ((v - r) / TWO_64) * TWO_64;
  }

  /** Under `idHash` the hash of the session's id, as a signed number, selects the node. */
  lemma IdHashPolicy(code: int, nodes: seq<NodeEntry>, newest: NodeEntry, sess: Session, h: int, draw: int)
    requires DistinctIds(nodes) && IsNewest(newest, nodes) && |nodes| > 1 && Asks(newest, code, "idhash")
    requires IsSigned(sess.idHash, h)
    ensures PicksByHash(nodes, Pick(Build(code, nodes), sess, draw), h)
  {
    BuildAsked(code, nodes, newest);
    SignedUnique(sess.idHash, h);
    HashPosition(nodes, h);
    assert |Sort(true, nodes)| == |multiset(Sort(true, nodes))| == |multiset(nodes)|;
  }

  /** Under `ipHash` the low 64 bits of the address, as a signed number, select the node. */
  lemma IpHashPolicy(code: int, nodes: seq<NodeEntry>, newest: NodeEntry, sess: Session, h: int, draw: int)
    requires DistinctIds(nodes) && IsNewest(newest, nodes) && |nodes| > 1 && Asks(newest, code, "iphash")
    requires sess.address.Some? ==> IsSigned(BigEndian(sess.address.value), h)
    ensures var r := Pick(Build(code, nodes), sess, draw);
            if sess.address.None? then r == Failure(BadAddress) else PicksByHash(nodes, r, h)
  {
    BuildAsked(code, nodes, newest);
    assert |Sort(true, nodes)| == |multiset(Sort(true, nodes))| == |multiset(nodes)|;
    if sess.address.Some? {
      SignedUnique(BigEndian(sess.address.value), h);
      HashPosition(nodes, h);
    }
  }

  /** A single node is picked whatever it asks for, and no node at all is reported. */
  lemma FewNodes(code: int, e: NodeEntry, sess: Session, draw: int)
    ensures Pick(Build(code, [e]), sess, draw) == Success(e.id)
    ensures Pick(Build(code, []), sess, draw) == Failure(NoNodeAvailable)
  {
  }

  /** Any other text, or none, is reported with every pick. */
  lemma UnknownPolicy(code: int, nodes: seq<NodeEntry>, newest: NodeEntry, sess: Session, draw: int)
    requires DistinctIds(nodes) && IsNewest(newest, nodes) && |nodes| > 1
    requires !Asks(newest, code, "random") && !Asks(newest, code, "roundrobin") && !Asks(newest, code, "iphash")
    requires !Asks(newest, code, "idhash") && !Asks(newest, code, "oldest") && !Asks(newest, code, "newest")
    ensures forall i :: IsFirst(newest.services, code, i) ==>
              Pick(Build(code, nodes), sess, draw) == Failure(NotImplemented(newest.services[i].balancer))
    ensures !Offers(newest, code) ==> Pick(Build(code, nodes), sess, draw) == Failure(NotImplemented(""))
  {
    AskedKind(newest, code);
    BuildByAge(code, nodes, newest, Sort(true, nodes), Unknown);
    SortedByAge(nodes, newest);
    FirstDescExact(newest.services, code);
    forall i | IsFirst(newest.services, code, i) ensures Policy(newest, code) == newest.services[i].balancer {
      FirstDescAt(newest.services, code, i);
    }
  }
}
