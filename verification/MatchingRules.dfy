/** Which nodes the second matching pass pairs, said of the resulting pairing alone. */
module MatchingRules {
  import opened Wrappers
  import opened Sequences
  import opened Matching

  /** A node's signatures in the order in which they are tried: the primary one, then the aliases. */
  function Tried(identity: NodeIdentity): seq<Signature> {
    (if identity.primary.Some? then [identity.primary.value] else []) + identity.aliases
  }

  /** The two nodes are the same occurrence of one primary signature. */
  predicate IsPrimaryPair(template: seq<NodeIdentity>, destination: seq<NodeIdentity>, m: Match) {
    && m.template < |template| && m.destination < |destination|
    && template[m.template].primary == Some(m.signature) == destination[m.destination].primary
    && PrimaryRank(template, m.signature, m.template) == PrimaryRank(destination, m.signature, m.destination)
  }

  /** A primary pair, or the pair of an earlier template node, has the destination node. */
  ghost predicate TakenBefore(template: seq<NodeIdentity>, destination: seq<NodeIdentity>, t: nat, d: nat) {
    exists m :: m in Pairing(template, destination).matched && m.destination == d
      && (IsPrimaryPair(template, destination, m) || m.template < t)
  }

  /** The destination node carries the signature and is still there when template node `t` is tried. */
  ghost predicate Offers(template: seq<NodeIdentity>, destination: seq<NodeIdentity>, t: nat, s: Signature, d: nat) {
    d < |destination| && s in Tried(destination[d]) && !TakenBefore(template, destination, t, d)
  }

  ghost predicate InPrimaryPair(template: seq<NodeIdentity>, destination: seq<NodeIdentity>, t: nat) {
    exists m :: IsPrimaryPair(template, destination, m) && m.template == t
  }

  /** The second pass at template node `t`. */
  function At(template: seq<NodeIdentity>, destination: seq<NodeIdentity>, t: nat): Progress
    requires t <= |template|
  {
    var first := PrimaryPass(template, destination);
    Greedy(t, Map(Signatures, template), Map(Signatures, destination),
           Progress([], first.templates, first.destinations))
  }

  lemma AtStep(template: seq<NodeIdentity>, destination: seq<NodeIdentity>, t: nat)
    requires t < |template|
    ensures At(template, destination, t + 1) ==
            Advance(At(template, destination, t), t, Map(Signatures, template), Map(Signatures, destination))
  {}

  /** Later steps only add pairs of later template nodes. */
  lemma {:induction false} StepsAdd(template: seq<NodeIdentity>, destination: seq<NodeIdentity>, t: nat, n: nat)
    requires t <= n <= |template|
    ensures forall m :: m in At(template, destination, n).matched <==>
              m in At(template, destination, t).matched
              || (m in At(template, destination, n).matched && t <= m.template < n)
    ensures forall m :: m in At(template, destination, t).matched ==> m.template < t
    decreases n
  {
    hide At, Choice;
    if t < n {
      StepsAdd(template, destination, t, n - 1);
      AtStep(template, destination, n - 1);
    } else if t > 0 {
      StepsAdd(template, destination, t - 1, t - 1);
      AtStep(template, destination, t - 1);
    } else {
      NoSteps(template, destination);
    }
  }

  lemma NoSteps(template: seq<NodeIdentity>, destination: seq<NodeIdentity>)
    ensures At(template, destination, 0).matched == []
  {}

  lemma {:induction false} StepsUse(template: seq<NodeIdentity>, destination: seq<NodeIdentity>, t: nat)
    requires t <= |template|
    ensures var first, now := PrimaryPass(template, destination), At(template, destination, t);
            && (forall d :: d in now.destinations <==>
                  d in first.destinations || exists m :: m in now.matched && m.destination == d)
            && (forall u :: u in now.templates <==>
                  u in first.templates || exists m :: m in now.matched && m.template == u)
            && (forall m :: m in now.matched ==> m.template !in first.templates)
  {
    hide At, Choice, PrimaryPass;
    if t > 0 {
      StepsUse(template, destination, t - 1);
      AtStep(template, destination, t - 1);
      var before, after := At(template, destination, t - 1), At(template, destination, t);
      if after != before {
        var added := after.matched[|before.matched|];
        assert after.matched == before.matched + [added];
        assert added in after.matched && forall m :: m in after.matched <==> m in before.matched || m == added;
      }
    } else {
      StartUses(template, destination);
    }
  }

  lemma StartUses(template: seq<NodeIdentity>, destination: seq<NodeIdentity>)
    ensures var first, now := PrimaryPass(template, destination), At(template, destination, 0);
            now == Progress([], first.templates, first.destinations)
  {}

  lemma PrimaryUses(template: seq<NodeIdentity>, destination: seq<NodeIdentity>)
    ensures var first := PrimaryPass(template, destination);
            && (forall m :: m in first.matched <==> IsPrimaryPair(template, destination, m))
            && (forall t :: t in first.templates <==> InPrimaryPair(template, destination, t))
            && (forall d :: d in first.destinations <==>
                  exists m :: IsPrimaryPair(template, destination, m) && m.destination == d)
  {
    var first := PrimaryPass(template, destination);
    GreedyKeepsConsistent(|template|, NOTHING, template, destination, Primary);
    hide PrimaryPass, Greedy, Agrees;
    forall m ensures m in first.matched <==> IsPrimaryPair(template, destination, m) {
      PrimaryPassPairsOccurrences(template, destination, m);
    }
    hide IsPrimaryPair;
    ImagesAreMembers(first.matched);
  }

  lemma ImagesAreMembers(matched: seq<Match>)
    ensures forall t :: t in Map(TemplateOf, matched) <==> exists m :: m in matched && m.template == t
    ensures forall d :: d in Map(DestinationOf, matched) <==> exists m :: m in matched && m.destination == d
  {
    forall m | m in matched
      ensures m.template in Map(TemplateOf, matched) && m.destination in Map(DestinationOf, matched)
    {
      var k :| 0 <= k < |matched| && matched[k] == m;
      assert Map(TemplateOf, matched)[k] == m.template && Map(DestinationOf, matched)[k] == m.destination;
    }
  }

  /** The pairing is the primary pairs and the pairs of the second pass. */
  lemma PairingIsBoth(template: seq<NodeIdentity>, destination: seq<NodeIdentity>)
    ensures forall m :: m in Pairing(template, destination).matched <==>
              IsPrimaryPair(template, destination, m) || m in At(template, destination, |template|).matched
  {
    SortedPermutation(template, destination);
    PrimaryUses(template, destination);
    hide PrimaryPass, Greedy, IsPrimaryPair, Pairing;
  }

  /** What is used up before template node `t` is tried again. */
  lemma UsedIsTaken(template: seq<NodeIdentity>, destination: seq<NodeIdentity>, t: nat)
    requires t <= |template|
    ensures forall d :: d in At(template, destination, t).destinations <==> TakenBefore(template, destination, t, d)
    ensures t in At(template, destination, t).templates <==> InPrimaryPair(template, destination, t)
  {
    PairingIsBoth(template, destination);
    PrimaryUses(template, destination);
    StepsUse(template, destination, t);
    StepsAdd(template, destination, t, |template|);
    hide PrimaryPass, At, IsPrimaryPair, Pairing;
    var now, all := At(template, destination, t), At(template, destination, |template|);
    StepsUse(template, destination, |template|);
    forall d ensures d in now.destinations <==> TakenBefore(template, destination, t, d) {
      if m :| m in Pairing(template, destination).matched && m.destination == d
              && (IsPrimaryPair(template, destination, m) || m.template < t) {
        assert IsPrimaryPair(template, destination, m) || m in now.matched;
      }
    }
  }

  // ----- the choice at one template node

  /** `i` is the first of the signatures that some node offers, and `d` the first node that offers it. */
  ghost predicate IsFirstOffer(signatures: seq<Signature>, nodes: seq<seq<Signature>>, used: set<nat>, i: nat, d: nat) {
    && i < |signatures| && Free(nodes, signatures[i], used, d)
    && (forall e: nat :: e < d ==> !Free(nodes, signatures[i], used, e))
    && (forall j, e: nat :: 0 <= j < i ==> !Free(nodes, signatures[j], used, e))
  }

  lemma {:induction false} ChoiceIsFirstOffer(signatures: seq<Signature>, nodes: seq<seq<Signature>>, used: set<nat>)
    returns (i: nat)
    ensures match Choice(signatures, nodes, used)
            case Some(choice) => IsFirstOffer(signatures, nodes, used, i, choice.0) && signatures[i] == choice.1
            case None => forall s, d: nat :: s in signatures ==> !Free(nodes, s, used, d)
  {
    i := 0;
    if signatures != [] {
      var found := FirstFree(nodes, signatures[0], used, 0);
      hide Free, FirstFree;
      if found.None? {
        i := ChoiceIsFirstOffer(signatures[1..], nodes, used);
        i := i + 1;
        assert forall j :: 0 < j < |signatures| ==> signatures[j] == signatures[1..][j - 1];
      }
    }
  }

  lemma SignaturesAreTried(identities: seq<NodeIdentity>)
    ensures |Map(Signatures, identities)| == |identities|
    ensures forall k :: 0 <= k < |identities| ==> Map(Signatures, identities)[k] == Tried(identities[k])
  {}

  /**
   * A template node outside the primary pairs is paired exactly when some destination node that neither
   * a primary pair nor an earlier template node has carries one of its signatures. It then gets the
   * first such signature, primary before aliases, and the first such node.
   */
  lemma SecondPassIsExact(template: seq<NodeIdentity>, destination: seq<NodeIdentity>, t: nat)
    requires t < |template| && !InPrimaryPair(template, destination, t)
    ensures (exists m :: m in Pairing(template, destination).matched && m.template == t) <==>
            exists s, d :: s in Tried(template[t]) && Offers(template, destination, t, s, d)
    ensures forall m :: m in Pairing(template, destination).matched && m.template == t ==>
              exists i :: 0 <= i < |Tried(template[t])| && Tried(template[t])[i] == m.signature
                && Offers(template, destination, t, m.signature, m.destination)
                && (forall d: nat :: d < m.destination ==> !Offers(template, destination, t, m.signature, d))
                && forall j, d: nat :: 0 <= j < i ==> !Offers(template, destination, t, Tried(template[t])[j], d)
  {
    var nodes := Map(Signatures, destination);
    var now, all := At(template, destination, t), At(template, destination, |template|);
    UsedIsTaken(template, destination, t);
    AtStep(template, destination, t);
    SignaturesAreTried(template);
    SignaturesAreTried(destination);
    PairingIsBoth(template, destination);
    StepsAdd(template, destination, t, |template|);
    StepsAdd(template, destination, t + 1, |template|);
    var i := ChoiceIsFirstOffer(Tried(template[t]), nodes, now.destinations);
    hide At, Pairing, IsPrimaryPair, Choice, Signatures, TakenBefore, PrimaryPass;
    forall s, d: nat ensures Free(nodes, s, now.destinations, d) <==> Offers(template, destination, t, s, d) {}
    OnlyOwnStep(template, destination, t);
  }

  /** The pair of a template node outside the primary pairs is the one its own step adds. */
  lemma OnlyOwnStep(template: seq<NodeIdentity>, destination: seq<NodeIdentity>, t: nat)
    requires t < |template| && !InPrimaryPair(template, destination, t)
    ensures forall m: Match :: m.template == t ==>
              (m in Pairing(template, destination).matched <==> m in At(template, destination, t + 1).matched)
    ensures forall m :: m in At(template, destination, t).matched ==> m.template != t
  {
    PairingIsBoth(template, destination);
    StepsAdd(template, destination, t, |template|);
    StepsAdd(template, destination, t + 1, |template|);
    hide At, Pairing, IsPrimaryPair;
  }
}
