/** Pairing the nodes of a template with the nodes of a destination by identity signatures. */
module Matching {
  import opened Wrappers
  import opened Sequences
  import opened Sorting

  type Signature = seq<string>

  datatype NodeIdentity = NodeIdentity(primary: Option<Signature>, aliases: seq<Signature>)

  function Primary(identity: NodeIdentity): seq<Signature> {
    match identity.primary
    case Some(signature) => [signature]
    case None => []
  }

  function Signatures(identity: NodeIdentity): seq<Signature> {
    Primary(identity) + identity.aliases
  }

  datatype Match = Match(template: nat, destination: nat, signature: Signature)

  datatype Result = Result(matched: seq<Match>, unmatchedTemplate: seq<nat>, unmatchedDestination: seq<nat>)

  /** The matches made so far and the indices they use. */
  datatype Progress = Progress(matched: seq<Match>, templates: set<nat>, destinations: set<nat>)

  // ----- the simple form: search the destinations again for every template node

  predicate Free(nodes: seq<seq<Signature>>, signature: Signature, used: set<nat>, d: nat)
  {
    d < |nodes| && d !in used && signature in nodes[d]
  }

  /** The first node from `d` on that carries the signature and is not used. */
  function FirstFree(nodes: seq<seq<Signature>>, signature: Signature, used: set<nat>, d: nat): (r: Option<nat>)
    requires d <= |nodes|
    ensures r.Some? ==> d <= r.value && Free(nodes, signature, used, r.value)
    ensures forall e :: d <= e && Free(nodes, signature, used, e) ==> r.Some? && r.value <= e
    decreases |nodes| - d
  {
    if d == |nodes| then None
    else if Free(nodes, signature, used, d) then Some(d)
    else FirstFree(nodes, signature, used, d + 1)
  }

  /** The first of the signatures that some unused node carries, with the first such node. */
  function Choice(signatures: seq<Signature>, nodes: seq<seq<Signature>>, used: set<nat>): Option<(nat, Signature)> {
    if signatures == [] then None
    else
      match FirstFree(nodes, signatures[0], used, 0)
      case Some(d) => Some((d, signatures[0]))
      case None => Choice(signatures[1..], nodes, used)
  }

  function Advance(progress: Progress, t: nat, template: seq<seq<Signature>>, nodes: seq<seq<Signature>>): Progress
    requires t < |template|
  {
    if t in progress.templates then progress
    else
      match Choice(template[t], nodes, progress.destinations)
      case None => progress
      case Some(choice) =>
        Progress(progress.matched + [Match(t, choice.0, choice.1)],
                 progress.templates + {t}, progress.destinations + {choice.0})
  }

  /** One pass over the first `n` template nodes. */
  function Greedy(n: nat, template: seq<seq<Signature>>, nodes: seq<seq<Signature>>, start: Progress): Progress
    requires n <= |template|
  {
    if n == 0 then start
    else Advance(Greedy(n - 1, template, nodes, start), n - 1, template, nodes)
  }

  // ----- the fast form: one queue of candidates for every signature

  type Queues = map<Signature, seq<nat>>

  predicate Ascending(queue: seq<nat>) {
    forall i, j :: 0 <= i < j < |queue| ==> queue[i] <= queue[j]
  }

  /** A queue lists, in order, nodes that carry its signature, and every such node that is not used. */
  ghost predicate QueueOf(queue: seq<nat>, signature: Signature, nodes: seq<seq<Signature>>, used: set<nat>) {
    && Ascending(queue)
    && (forall k :: 0 <= k < |queue| ==> queue[k] < |nodes| && signature in nodes[queue[k]])
    && (forall d: nat :: Free(nodes, signature, used, d) ==> d in queue)
  }

  function QueueFor(queues: Queues, signature: Signature): seq<nat> {
    if signature in queues then queues[signature] else []
  }

  ghost predicate QueuesReady(queues: Queues, nodes: seq<seq<Signature>>, used: set<nat>) {
    forall signature :: QueueOf(QueueFor(queues, signature), signature, nodes, used)
  }

  method PopFree(queue: seq<nat>, ghost signature: Signature, ghost nodes: seq<seq<Signature>>, used: set<nat>)
    returns (rest: seq<nat>, found: Option<nat>)
    requires QueueOf(queue, signature, nodes, used)
    ensures found == FirstFree(nodes, signature, used, 0)
    ensures QueueOf(rest, signature, nodes, if found.Some? then used + {found.value} else used)
  {
    rest := queue;
    while rest != []
      invariant QueueOf(rest, signature, nodes, used)
    {
      var d := rest[0];
      ghost var before := rest;
      rest := rest[1..];
      assert before == [d] + rest;
      assert d in before;
      if d !in used {
        assert Free(nodes, signature, used, d);
        forall e: nat | Free(nodes, signature, used + {d}, e) ensures e in rest {
          assert Free(nodes, signature, used, e);
        }
        return rest, Some(d);
      }
      forall e: nat | Free(nodes, signature, used, e) ensures e in rest {
        assert e in before;
      }
    }
    found := None;
  }

  lemma UsingKeepsQueue(queue: seq<nat>, signature: Signature, nodes: seq<seq<Signature>>, used: set<nat>, d: nat)
    requires QueueOf(queue, signature, nodes, used)
    ensures QueueOf(queue, signature, nodes, used + {d})
  {
    forall e: nat | Free(nodes, signature, used + {d}, e) ensures e in queue {
      assert Free(nodes, signature, used, e);
    }
  }

  /** The `find_map` over a template node's signatures. */
  method FindCandidate(signatures: seq<Signature>, ghost nodes: seq<seq<Signature>>, queues: Queues, used: set<nat>)
    returns (rest: Queues, selected: Option<(nat, Signature)>)
    requires QueuesReady(queues, nodes, used)
    ensures selected == Choice(signatures, nodes, used)
    ensures QueuesReady(rest, nodes, if selected.Some? then used + {selected.value.0} else used)
  {
    hide QueueOf;
    rest := queues;
    for k := 0 to |signatures|
      invariant QueuesReady(rest, nodes, used)
      invariant Choice(signatures, nodes, used) == Choice(signatures[k..], nodes, used)
    {
      var signature := signatures[k];
      assert signatures[k..][0] == signature && signatures[k..][1..] == signatures[k + 1..];
      if signature in rest {
        ghost var before := rest;
        assert QueueOf(QueueFor(rest, signature), signature, nodes, used);
        var queue, found := PopFree(rest[signature], signature, nodes, used);
        rest := rest[signature := queue];
        ghost var now := if found.Some? then used + {found.value} else used;
        forall other ensures QueueOf(QueueFor(rest, other), other, nodes, now) {
          if other != signature {
            assert QueueFor(rest, other) == QueueFor(before, other);
            if found.Some? {
              UsingKeepsQueue(QueueFor(before, other), other, nodes, used, found.value);
            }
          }
        }
        if found.Some? {
          return rest, Some((found.value, signature));
        }
      } else {
        NothingQueued(rest, signature, nodes, used);
      }
    }
    selected := None;
  }

  lemma NothingQueued(queues: Queues, signature: Signature, nodes: seq<seq<Signature>>, used: set<nat>)
    requires QueuesReady(queues, nodes, used) && signature !in queues
    ensures FirstFree(nodes, signature, used, 0) == None
  {
    assert QueueOf(QueueFor(queues, signature), signature, nodes, used);
  }

  /** What a queue holds after the first `n` nodes and `m` signatures of the next one. */
  ghost predicate QueueSoFar(queue: seq<nat>, s: Signature, nodes: seq<seq<Signature>>, used: set<nat>, n: nat, m: nat)
    requires n <= |nodes| && (n < |nodes| ==> m <= |nodes[n]|)
  {
    && Ascending(queue)
    && (forall k :: 0 <= k < |queue| ==> queue[k] <= n && queue[k] < |nodes| && s in nodes[queue[k]])
    && (m == 0 ==> forall k :: 0 <= k < |queue| ==> queue[k] < n)
    && (forall d: nat :: d < n && Free(nodes, s, used, d) ==> d in queue)
    && (n < |nodes| && n !in used && s in nodes[n][..m] ==> n in queue)
  }

  ghost predicate Queued(queues: Queues, nodes: seq<seq<Signature>>, used: set<nat>, n: nat, m: nat)
    requires n <= |nodes| && (n < |nodes| ==> m <= |nodes[n]|)
  {
    forall s :: QueueSoFar(QueueFor(queues, s), s, nodes, used, n, m)
  }

  lemma PushOnQueue(queue: seq<nat>, nodes: seq<seq<Signature>>, used: set<nat>, n: nat, m: nat)
    requires n < |nodes| && m < |nodes[n]|
    requires QueueSoFar(queue, nodes[n][m], nodes, used, n, m)
    ensures QueueSoFar(queue + [n], nodes[n][m], nodes, used, n, m + 1)
  {
    hide Free;
    assert forall d: nat :: d in queue ==> d in queue + [n];
  }

  lemma PassQueue(queue: seq<nat>, s: Signature, nodes: seq<seq<Signature>>, used: set<nat>, n: nat, m: nat)
    requires n < |nodes| && m < |nodes[n]| && s != nodes[n][m]
    requires QueueSoFar(queue, s, nodes, used, n, m)
    ensures QueueSoFar(queue, s, nodes, used, n, m + 1)
  {
    hide Free;
    assert nodes[n][..m + 1] == nodes[n][..m] + [nodes[n][m]];
  }

  lemma PushKeepsQueued(queues: Queues, nodes: seq<seq<Signature>>, used: set<nat>, n: nat, m: nat)
    requires n < |nodes| && m < |nodes[n]|
    requires Queued(queues, nodes, used, n, m)
    ensures var s := nodes[n][m];
            Queued(queues[s := QueueFor(queues, s) + [n]], nodes, used, n, m + 1)
  {
    hide QueueSoFar;
    var s := nodes[n][m];
    var after := queues[s := QueueFor(queues, s) + [n]];
    forall o ensures QueueSoFar(QueueFor(after, o), o, nodes, used, n, m + 1) {
      assert QueueSoFar(QueueFor(queues, o), o, nodes, used, n, m);
      if o == s {
        PushOnQueue(QueueFor(queues, s), nodes, used, n, m);
      } else {
        PassQueue(QueueFor(queues, o), o, nodes, used, n, m);
      }
    }
  }

  /** The queue-building loop of a pass. */
  method BuildQueues(destination: seq<NodeIdentity>, used: set<nat>, signatures: NodeIdentity -> seq<Signature>)
    returns (queues: Queues)
    ensures QueuesReady(queues, Map(signatures, destination), used)
  {
    ghost var nodes := Map(signatures, destination);
    queues := map[];
    assert forall s :: QueueFor(queues, s) == [];
    hide QueueSoFar;
    assert Queued(queues, nodes, used, 0, 0) by { NothingQueuedYet(nodes, used); }
    hide Queued;
    for n := 0 to |destination|
      invariant Queued(queues, nodes, used, n, 0)
    {
      if n in used {
        SkipNode(queues, nodes, used, n);
      } else {
        var own := signatures(destination[n]);
        for m := 0 to |own|
          invariant Queued(queues, nodes, used, n, m)
        {
          PushKeepsQueued(queues, nodes, used, n, m);
          queues := queues[own[m] := QueueFor(queues, own[m]) + [n]];
        }
        AllPushed(queues, nodes, used, n);
      }
    }
    AllQueued(queues, nodes, used);
  }

  lemma NothingQueuedYet(nodes: seq<seq<Signature>>, used: set<nat>)
    ensures Queued(map[], nodes, used, 0, 0)
  {}

  lemma AllQueued(queues: Queues, nodes: seq<seq<Signature>>, used: set<nat>)
    requires Queued(queues, nodes, used, |nodes|, 0)
    ensures QueuesReady(queues, nodes, used)
  {
    forall s ensures QueueOf(QueueFor(queues, s), s, nodes, used) {
      assert QueueSoFar(QueueFor(queues, s), s, nodes, used, |nodes|, 0);
    }
  }

  lemma AllPushed(queues: Queues, nodes: seq<seq<Signature>>, used: set<nat>, n: nat)
    requires n < |nodes| && Queued(queues, nodes, used, n, |nodes[n]|) && n !in used
    ensures Queued(queues, nodes, used, n + 1, 0)
  {
    forall s ensures QueueSoFar(QueueFor(queues, s), s, nodes, used, n + 1, 0) {
      assert QueueSoFar(QueueFor(queues, s), s, nodes, used, n, |nodes[n]|);
      assert nodes[n][..|nodes[n]|] == nodes[n];
    }
  }

  lemma SkipNode(queues: Queues, nodes: seq<seq<Signature>>, used: set<nat>, n: nat)
    requires n < |nodes| && Queued(queues, nodes, used, n, 0) && n in used
    ensures Queued(queues, nodes, used, n + 1, 0)
  {
    forall s ensures QueueSoFar(QueueFor(queues, s), s, nodes, used, n + 1, 0) {
      assert QueueSoFar(QueueFor(queues, s), s, nodes, used, n, 0);
    }
  }

  /** `match_identity_pass`: the queues find exactly what a fresh search would find. */
  method MatchIdentityPass(
      template: seq<NodeIdentity>, destination: seq<NodeIdentity>,
      templates: set<nat>, destinations: set<nat>, signatures: NodeIdentity -> seq<Signature>)
    returns (matched: seq<Match>, usedTemplates: set<nat>, usedDestinations: set<nat>)
    ensures Progress(matched, usedTemplates, usedDestinations)
         == Greedy(|template|, Map(signatures, template), Map(signatures, destination),
                   Progress([], templates, destinations))
  {
    hide QueuesReady, Choice;
    ghost var nodes := Map(signatures, destination);
    ghost var start := Progress([], templates, destinations);
    var queues := BuildQueues(destination, destinations, signatures);
    matched, usedTemplates, usedDestinations := [], templates, destinations;
    for t := 0 to |template|
      invariant QueuesReady(queues, nodes, usedDestinations)
      invariant Progress(matched, usedTemplates, usedDestinations)
             == Greedy(t, Map(signatures, template), nodes, start)
    {
      if t !in usedTemplates {
        var rest, selected := FindCandidate(signatures(template[t]), nodes, queues, usedDestinations);
        queues := rest;
        if selected.Some? {
          var (d, signature) := selected.value;
          usedTemplates := usedTemplates + {t};
          usedDestinations := usedDestinations + {d};
          matched := matched + [Match(t, d, signature)];
        }
      }
    }
  }

  // ----- both passes together

  const NOTHING := Progress([], {}, {})

  function PrimaryPass(template: seq<NodeIdentity>, destination: seq<NodeIdentity>): Progress {
    Greedy(|template|, Map(Primary, template), Map(Primary, destination), NOTHING)
  }

  function FallbackPass(template: seq<NodeIdentity>, destination: seq<NodeIdentity>): Progress {
    var first := PrimaryPass(template, destination);
    Greedy(|template|, Map(Signatures, template), Map(Signatures, destination),
           Progress([], first.templates, first.destinations))
  }

  function Found(template: seq<NodeIdentity>, destination: seq<NodeIdentity>): seq<Match> {
    PrimaryPass(template, destination).matched + FallbackPass(template, destination).matched
  }

  function ByTemplate(): (Match, Match) -> bool {
    (m: Match, n: Match) => m.template <= n.template
  }

  /** The indices below `n` that are not in `used`, ascending. */
  function Unused(n: nat, used: set<nat>): (r: seq<nat>)
    ensures forall i: nat :: i in r <==> i < n && i !in used
    ensures forall i, j :: 0 <= i < j < |r| ==> r[i] < r[j]
  {
    if n == 0 then []
    else if n - 1 in used then Unused(n - 1, used)
    else
      var before := Unused(n - 1, used);
      assert forall i :: 0 <= i < |before| ==> before[i] in before;
      before + [n - 1]
  }

  function Pairing(template: seq<NodeIdentity>, destination: seq<NodeIdentity>): Result {
    var last := FallbackPass(template, destination);
    Result(Sort(ByTemplate(), Found(template, destination)),
           Unused(|template|, last.templates), Unused(|destination|, last.destinations))
  }

  method MatchNodeIdentities(template: seq<NodeIdentity>, destination: seq<NodeIdentity>) returns (result: Result)
    ensures result == Pairing(template, destination)
  {
    hide Greedy;
    var matched, templates, destinations := MatchIdentityPass(template, destination, {}, {}, Primary);
    var more;
    more, templates, destinations :=
      MatchIdentityPass(template, destination, templates, destinations, Signatures);
    matched := Sort(ByTemplate(), matched + more);
    result := Result(matched, Unused(|template|, templates), Unused(|destination|, destinations));
  }

  // ----- the primary pass pairs equal occurrences

  /** How many of the first `n` nodes carry the signature. */
  function Occurrences(nodes: seq<seq<Signature>>, signature: Signature, n: nat): nat
    requires n <= |nodes|
  {
    if n == 0 then 0
    else Occurrences(nodes, signature, n - 1) + if signature in nodes[n - 1] then 1 else 0
  }

  lemma {:induction false} OccurrencesGrow(nodes: seq<seq<Signature>>, s: Signature, e: nat, d: nat)
    requires e < d <= |nodes|
    ensures Occurrences(nodes, s, e) <= Occurrences(nodes, s, d)
    ensures s in nodes[e] ==> Occurrences(nodes, s, e) < Occurrences(nodes, s, d)
  {
    if e < d - 1 {
      OccurrencesGrow(nodes, s, e, d - 1);
    }
  }

  lemma {:induction false} OccurrenceAt(nodes: seq<seq<Signature>>, s: Signature, d: nat, rank: nat) returns (e: nat)
    requires d <= |nodes| && rank < Occurrences(nodes, s, d)
    ensures e < d && s in nodes[e] && Occurrences(nodes, s, e) == rank
  {
    if rank < Occurrences(nodes, s, d - 1) {
      e := OccurrenceAt(nodes, s, d - 1, rank);
    } else {
      e := d - 1;
    }
  }

  /** The two nodes are the same occurrence of the signature, each on its own side. */
  predicate SameOccurrence(m: Match, template: seq<seq<Signature>>, nodes: seq<seq<Signature>>) {
    && m.template < |template| && m.destination < |nodes|
    && m.signature in template[m.template] && m.signature in nodes[m.destination]
    && Occurrences(template, m.signature, m.template) == Occurrences(nodes, m.signature, m.destination)
  }

  ghost predicate PairsOccurrences(
      p: Progress, n: nat, template: seq<seq<Signature>>, nodes: seq<seq<Signature>>)
    requires n <= |template|
  {
    && (forall t :: t in p.templates ==> t < n)
    && (forall d, s :: 0 <= d < |nodes| && s in nodes[d] ==>
          (d in p.destinations <==> Occurrences(nodes, s, d) < Occurrences(template, s, n)))
    && (forall m :: m in p.matched <==> m.template < n && SameOccurrence(m, template, nodes))
  }

  /** `found` is the node of that rank among the nodes with the signature, if there is one. */
  ghost predicate IsOccurrence(found: Option<nat>, nodes: seq<seq<Signature>>, s: Signature, rank: nat) {
    && (found.Some? ==> found.value < |nodes| && Occurrences(nodes, s, found.value) == rank)
    && (forall d: nat :: d < |nodes| && s in nodes[d] && Occurrences(nodes, s, d) == rank ==> found == Some(d))
  }

  /** The first free node is the one whose rank is the number of uses so far. */
  lemma FirstFreeHasRank(
      p: Progress, n: nat, template: seq<seq<Signature>>, nodes: seq<seq<Signature>>, s: Signature)
    requires n <= |template| && PairsOccurrences(p, n, template, nodes)
    ensures IsOccurrence(FirstFree(nodes, s, p.destinations, 0), nodes, s, Occurrences(template, s, n))
  {
    var found, rank := FirstFree(nodes, s, p.destinations, 0), Occurrences(template, s, n);
    if found.Some? && Occurrences(nodes, s, found.value) > rank {
      var e := OccurrenceAt(nodes, s, found.value, rank);
      assert Free(nodes, s, p.destinations, e);
    }
    forall d: nat | d < |nodes| && s in nodes[d] && Occurrences(nodes, s, d) == rank ensures found == Some(d) {
      assert Free(nodes, s, p.destinations, d);
      if found.value < d {
        OccurrencesGrow(nodes, s, found.value, d);
      }
    }
  }

  lemma PairNextOccurrence(p: Progress, n: nat, template: seq<seq<Signature>>, nodes: seq<seq<Signature>>)
    requires n < |template| && |template[n]| <= 1 && (forall d :: 0 <= d < |nodes| ==> |nodes[d]| <= 1)
    requires PairsOccurrences(p, n, template, nodes)
    ensures PairsOccurrences(Advance(p, n, template, nodes), n + 1, template, nodes)
  {
    var after := Advance(p, n, template, nodes);
    if template[n] == [] {
      assert after == p;
      forall m: Match | m.template < n + 1 && SameOccurrence(m, template, nodes) ensures m.template < n {
      }
    } else {
      var s := template[n][0];
      assert template[n] == [s];
      assert Choice(template[n][1..], nodes, p.destinations) == None;
      FirstFreeHasRank(p, n, template, nodes, s);
      PairSignature(p, n, template, nodes, s);
    }
  }

  lemma PairSignature(p: Progress, n: nat, template: seq<seq<Signature>>, nodes: seq<seq<Signature>>, s: Signature)
    requires n < |template| && template[n] == [s] && (forall d :: 0 <= d < |nodes| ==> |nodes[d]| <= 1)
    requires PairsOccurrences(p, n, template, nodes)
    requires IsOccurrence(FirstFree(nodes, s, p.destinations, 0), nodes, s, Occurrences(template, s, n))
    ensures var found := FirstFree(nodes, s, p.destinations, 0);
            PairsOccurrences(
              if found.Some?
              then Progress(p.matched + [Match(n, found.value, s)], p.templates + {n}, p.destinations + {found.value})
              else p, n + 1, template, nodes)
  {
    hide FirstFree, Occurrences;
    var found := FirstFree(nodes, s, p.destinations, 0);
    OneMore(template, n, s);
    forall d, o | 0 <= d < |nodes| && o in nodes[d]
      ensures (d in p.destinations || found == Some(d)) <==> Occurrences(nodes, o, d) < Occurrences(template, o, n + 1)
    {
      assert nodes[d] == [o];
    }
    forall m: Match
      ensures m in p.matched || (found.Some? && m == Match(n, found.value, s))
         <==> m.template < n + 1 && SameOccurrence(m, template, nodes)
    {
    }
  }

  lemma OneMore(template: seq<seq<Signature>>, n: nat, s: Signature)
    requires n < |template| && template[n] == [s]
    ensures forall o :: Occurrences(template, o, n + 1) == Occurrences(template, o, n) + if o == s then 1 else 0
  {}

  lemma {:induction false} GreedyPairsOccurrences(n: nat, template: seq<seq<Signature>>, nodes: seq<seq<Signature>>)
    requires n <= |template|
    requires forall t :: 0 <= t < |template| ==> |template[t]| <= 1
    requires forall d :: 0 <= d < |nodes| ==> |nodes[d]| <= 1
    ensures PairsOccurrences(Greedy(n, template, nodes, NOTHING), n, template, nodes)
  {
    if n > 0 {
      GreedyPairsOccurrences(n - 1, template, nodes);
      hide PairsOccurrences, Advance;
      PairNextOccurrence(Greedy(n - 1, template, nodes, NOTHING), n - 1, template, nodes);
    }
  }

  /** How many of the first `n` identities have this primary signature. */
  function PrimaryRank(identities: seq<NodeIdentity>, signature: Signature, n: nat): nat
    requires n <= |identities|
  {
    if n == 0 then 0
    else PrimaryRank(identities, signature, n - 1) + if identities[n - 1].primary == Some(signature) then 1 else 0
  }

  lemma {:induction false} RankIsOccurrences(identities: seq<NodeIdentity>, signature: Signature, n: nat)
    requires n <= |identities|
    ensures PrimaryRank(identities, signature, n) == Occurrences(Map(Primary, identities), signature, n)
  {
    if n > 0 {
      RankIsOccurrences(identities, signature, n - 1);
    }
  }

  /** The primary pass pairs the k-th template with the k-th destination occurrence of each primary signature. */
  lemma PrimaryPassPairsOccurrences(template: seq<NodeIdentity>, destination: seq<NodeIdentity>, m: Match)
    ensures m in PrimaryPass(template, destination).matched <==>
            && m.template < |template| && m.destination < |destination|
            && template[m.template].primary == Some(m.signature) == destination[m.destination].primary
            && PrimaryRank(template, m.signature, m.template) == PrimaryRank(destination, m.signature, m.destination)
  {
    GreedyPairsOccurrences(|template|, Map(Primary, template), Map(Primary, destination));
    hide Greedy;
    if m.template < |template| && m.destination < |destination| {
      RankIsOccurrences(template, m.signature, m.template);
      RankIsOccurrences(destination, m.signature, m.destination);
    }
  }

  /** A destination occurrence stays unpaired exactly when the template has too few of its signature. */
  lemma PrimaryPassPairsTheFewer(template: seq<NodeIdentity>, destination: seq<NodeIdentity>, d: nat, s: Signature)
    requires d < |destination| && destination[d].primary == Some(s)
    ensures d in PrimaryPass(template, destination).destinations <==>
            PrimaryRank(destination, s, d) < PrimaryRank(template, s, |template|)
  {
    GreedyPairsOccurrences(|template|, Map(Primary, template), Map(Primary, destination));
    hide Greedy;
    RankIsOccurrences(template, s, |template|);
    RankIsOccurrences(destination, s, d);
    assert s in Map(Primary, destination)[d];
  }

  // ----- what both passes leave

  function TemplateOf(m: Match): nat { m.template }

  function DestinationOf(m: Match): nat { m.destination }

  predicate Agrees(m: Match, template: seq<NodeIdentity>, destination: seq<NodeIdentity>) {
    && m.template < |template| && m.destination < |destination|
    && m.signature in Signatures(template[m.template]) && m.signature in Signatures(destination[m.destination])
  }

  /** The used indices are those of the matches, no index is used twice, every match has a shared signature. */
  ghost predicate Consistent(p: Progress, template: seq<NodeIdentity>, destination: seq<NodeIdentity>) {
    && (forall t :: t in p.templates <==> t in Map(TemplateOf, p.matched))
    && (forall d :: d in p.destinations <==> d in Map(DestinationOf, p.matched))
    && Distinct(Map(TemplateOf, p.matched))
    && Distinct(Map(DestinationOf, p.matched))
    && (forall m :: m in p.matched ==> Agrees(m, template, destination))
  }

  lemma {:induction false} ChoiceIsFree(signatures: seq<Signature>, nodes: seq<seq<Signature>>, used: set<nat>)
    ensures match Choice(signatures, nodes, used)
            case Some(choice) => choice.1 in signatures && Free(nodes, choice.1, used, choice.0)
            case None => forall s, d: nat :: s in signatures ==> !Free(nodes, s, used, d)
  {
    if signatures != [] {
      ChoiceIsFree(signatures[1..], nodes, used);
      assert signatures == [signatures[0]] + signatures[1..];
    }
  }

  lemma AdvanceKeepsConsistent(p: Progress, t: nat, template: seq<NodeIdentity>, destination: seq<NodeIdentity>,
                               signatures: NodeIdentity -> seq<Signature>)
    requires t < |template| && Consistent(p, template, destination)
    requires forall identity, s :: s in signatures(identity) ==> s in Signatures(identity)
    ensures Consistent(Advance(p, t, Map(signatures, template), Map(signatures, destination)), template, destination)
  {
    var nodes := Map(signatures, destination);
    ChoiceIsFree(signatures(template[t]), nodes, p.destinations);
    if t !in p.templates && Choice(signatures(template[t]), nodes, p.destinations).Some? {
      var (d, s) := Choice(signatures(template[t]), nodes, p.destinations).value;
      var more := p.matched + [Match(t, d, s)];
      assert Map(TemplateOf, more) == Map(TemplateOf, p.matched) + [t];
      assert Map(DestinationOf, more) == Map(DestinationOf, p.matched) + [d];
      assert Agrees(Match(t, d, s), template, destination);
    }
  }

  lemma {:induction false} GreedyKeepsConsistent(
      n: nat, start: Progress, template: seq<NodeIdentity>, destination: seq<NodeIdentity>,
      signatures: NodeIdentity -> seq<Signature>)
    requires n <= |template| && Consistent(start, template, destination)
    requires forall identity, s :: s in signatures(identity) ==> s in Signatures(identity)
    ensures Consistent(Greedy(n, Map(signatures, template), Map(signatures, destination), start), template, destination)
  {
    if n > 0 {
      GreedyKeepsConsistent(n - 1, start, template, destination, signatures);
      hide Consistent, Advance;
      AdvanceKeepsConsistent(
        Greedy(n - 1, Map(signatures, template), Map(signatures, destination), start),
        n - 1, template, destination, signatures);
    }
  }

  function Prefixed(earlier: seq<Match>, p: Progress): Progress {
    Progress(earlier + p.matched, p.templates, p.destinations)
  }

  /** A pass only adds to the matches it starts from. */
  lemma {:induction false} GreedyExtends(
      n: nat, template: seq<seq<Signature>>, nodes: seq<seq<Signature>>, earlier: seq<Match>, start: Progress)
    requires n <= |template|
    ensures Greedy(n, template, nodes, Prefixed(earlier, start)) == Prefixed(earlier, Greedy(n, template, nodes, start))
    ensures start.templates <= Greedy(n, template, nodes, start).templates
    ensures start.destinations <= Greedy(n, template, nodes, start).destinations
  {
    if n > 0 {
      GreedyExtends(n - 1, template, nodes, earlier, start);
    }
  }

  lemma FoundIsConsistent(template: seq<NodeIdentity>, destination: seq<NodeIdentity>)
    ensures var last := FallbackPass(template, destination);
            Consistent(Progress(Found(template, destination), last.templates, last.destinations), template, destination)
  {
    var first := PrimaryPass(template, destination);
    GreedyKeepsConsistent(|template|, NOTHING, template, destination, Primary);
    GreedyKeepsConsistent(|template|, first, template, destination, Signatures);
    hide Greedy;
    GreedyExtends(|template|, Map(Signatures, template), Map(Signatures, destination), first.matched,
                  Progress([], first.templates, first.destinations));
    assert first.matched + [] == first.matched;
  }

  lemma {:induction false} GreedyLeavesNothing(
      n: nat, template: seq<seq<Signature>>, nodes: seq<seq<Signature>>, start: Progress, t: nat, s: Signature, d: nat)
    requires t < n <= |template| && s in template[t]
    requires t !in Greedy(n, template, nodes, start).templates
    ensures !Free(nodes, s, Greedy(n, template, nodes, start).destinations, d)
  {
    var before := Greedy(n - 1, template, nodes, start);
    if t == n - 1 {
      ChoiceIsFree(template[t], nodes, before.destinations);
    } else {
      GreedyLeavesNothing(n - 1, template, nodes, start, t, s, d);
    }
  }

  lemma SortedPermutation(template: seq<NodeIdentity>, destination: seq<NodeIdentity>)
    ensures var found, matched := Found(template, destination), Pairing(template, destination).matched;
            && (forall m :: m in matched <==> m in found)
            && (Distinct(Map(TemplateOf, found)) <==> Distinct(Map(TemplateOf, matched)))
            && (Distinct(Map(DestinationOf, found)) <==> Distinct(Map(DestinationOf, matched)))
            && SortedBy(ByTemplate(), matched)
  {
    var found, matched := Found(template, destination), Pairing(template, destination).matched;
    hide Found;
    SortSorts(ByTemplate(), found);
    SortKeepsMembers(ByTemplate(), found);
    MapPermutes(TemplateOf, found, matched);
    MapPermutes(DestinationOf, found, matched);
    DistinctPermutes(Map(TemplateOf, found), Map(TemplateOf, matched));
    DistinctPermutes(Map(DestinationOf, found), Map(DestinationOf, matched));
  }

  /** A one-to-one pairing, listed by strictly ascending template index, of nodes that share the recorded signature. */
  lemma PairingIsOneToOne(template: seq<NodeIdentity>, destination: seq<NodeIdentity>)
    ensures var matched := Pairing(template, destination).matched;
            && (forall i, j :: 0 <= i < j < |matched| ==> matched[i].template < matched[j].template)
            && (forall i, j :: 0 <= i < j < |matched| ==> matched[i].destination != matched[j].destination)
            && (forall k :: 0 <= k < |matched| ==> Agrees(matched[k], template, destination))
  {
    FoundIsConsistent(template, destination);
    SortedPermutation(template, destination);
    hide Found, FallbackPass, Agrees, Pairing;
    var matched := Pairing(template, destination).matched;
    forall i, j | 0 <= i < j < |matched|
      ensures matched[i].template < matched[j].template && matched[i].destination != matched[j].destination
    {
      assert ByTemplate()(matched[i], matched[j]);
      assert Map(TemplateOf, matched)[i] != Map(TemplateOf, matched)[j];
      assert Map(DestinationOf, matched)[i] != Map(DestinationOf, matched)[j];
    }
  }

  /** Every index on either side is in a match or in the unmatched list, never in both. */
  lemma PairingPartitions(template: seq<NodeIdentity>, destination: seq<NodeIdentity>)
    ensures var r := Pairing(template, destination);
            && (forall t: nat :: t in r.unmatchedTemplate <==> t < |template| && t !in Map(TemplateOf, r.matched))
            && (forall d: nat ::
                  d in r.unmatchedDestination <==> d < |destination| && d !in Map(DestinationOf, r.matched))
  {
    FoundIsConsistent(template, destination);
    SortedPermutation(template, destination);
    var r, found := Pairing(template, destination), Found(template, destination);
    var last := FallbackPass(template, destination);
    assert r.unmatchedTemplate == Unused(|template|, last.templates);
    assert r.unmatchedDestination == Unused(|destination|, last.destinations);
    hide Found, FallbackPass, Agrees, Pairing;
    SameImages(TemplateOf, found, r.matched);
    SameImages(DestinationOf, found, r.matched);
  }

  lemma SameImages(f: Match -> nat, s: seq<Match>, t: seq<Match>)
    requires forall m :: m in s <==> m in t
    ensures forall x :: x in Map(f, s) <==> x in Map(f, t)
  {
    forall x | x in Map(f, s) ensures x in Map(f, t) {
      var k :| 0 <= k < |s| && f(s[k]) == x;
      assert s[k] in t;
      var j :| 0 <= j < |t| && t[j] == s[k];
      assert Map(f, t)[j] == x;
    }
    forall x | x in Map(f, t) ensures x in Map(f, s) {
      var k :| 0 <= k < |t| && f(t[k]) == x;
      assert t[k] in s;
      var j :| 0 <= j < |s| && s[j] == t[k];
      assert Map(f, s)[j] == x;
    }
  }

  /** Nothing that could still be paired is left: no two unmatched nodes share a primary or alias signature. */
  lemma PairingIsMaximal(template: seq<NodeIdentity>, destination: seq<NodeIdentity>, t: nat, d: nat, s: Signature)
    requires t in Pairing(template, destination).unmatchedTemplate
    requires d in Pairing(template, destination).unmatchedDestination
    ensures !(s in Signatures(template[t]) && s in Signatures(destination[d]))
  {
    var first := PrimaryPass(template, destination);
    if s in Signatures(template[t]) && s in Signatures(destination[d]) {
      GreedyLeavesNothing(|template|, Map(Signatures, template), Map(Signatures, destination),
                          Progress([], first.templates, first.destinations), t, s, d);
    }
  }

  /** Aliases cannot take a node from the pair its primary signature gives it. */
  lemma PrimaryPairsSurvive(template: seq<NodeIdentity>, destination: seq<NodeIdentity>, m: Match)
    requires m.template < |template| && m.destination < |destination|
    requires template[m.template].primary == Some(m.signature) == destination[m.destination].primary
    requires PrimaryRank(template, m.signature, m.template) == PrimaryRank(destination, m.signature, m.destination)
    ensures m in Pairing(template, destination).matched
  {
    PrimaryPassPairsOccurrences(template, destination, m);
    SortedPermutation(template, destination);
  }
}
