/** How a server picks the cipher: in order of preference, but within a group of equal
    preference in the other side's order. */
module CipherChoice {
  import opened Bytes

  datatype CipherSuite = CipherSuite(value: nat, minVersion: nat, maxVersion: nat, mkey: bv32, auth: bv32)

  /** What the server's configuration and the ClientHello allow. */
  datatype Limits = Limits(version: nat, maskK: bv32, maskA: bv32)

  predicate Supported(c: CipherSuite, l: Limits) {
    c.minVersion <= l.version <= c.maxVersion && c.mkey & l.maskK != 0 && c.auth & l.maskA != 0
  }

  predicate Acceptable(c: CipherSuite, allow: seq<CipherSuite>, l: Limits) {
    Supported(c, l) && c in allow
  }

  /** The first place of c in a list. */
  function IndexIn(list: seq<CipherSuite>, c: CipherSuite): (i: nat)
    requires c in list
    ensures i < |list| && list[i] == c && c !in list[..i]
  {
    if list[0] == c then 0
    else
      var i := 1 + IndexIn(list[1..], c);
      assert list[..i] == [list[0]] + list[1..][..i - 1];
      i
  }

  /** How many groups end before place i.  A flag of 1 says that the group goes on;
      without flags every cipher is a group of its own. */
  function Group(flags: Option<seq<nat>>, i: nat): nat
    requires flags.Some? ==> i <= |flags.value|
  {
    if flags.None? then i
    else if i == 0 then 0
    else Group(flags, i - 1) + (if flags.value[i - 1] == 1 then 0 else 1)
  }

  /** Flags are 0 or 1, and the last group ends. */
  predicate ValidFlags(prio: seq<CipherSuite>, flags: Option<seq<nat>>) {
    flags.Some? ==>
      && |flags.value| == |prio| && (forall f <- flags.value :: f <= 1)
      && (|prio| > 0 ==> flags.value[|prio| - 1] == 0)
  }

  lemma {:induction false} GroupMonotone(flags: Option<seq<nat>>, i: nat, j: nat)
    requires i <= j && (flags.Some? ==> j <= |flags.value|)
    ensures Group(flags, i) <= Group(flags, j)
    decreases j
  {
    if i < j {
      GroupMonotone(flags, i, j - 1);
    }
  }

  /** Place i holds the best choice: no acceptable cipher is in an earlier group, and none
      in its own comes earlier in the other side's list. */
  ghost predicate Best(prio: seq<CipherSuite>, flags: Option<seq<nat>>, allow: seq<CipherSuite>, l: Limits, i: nat)
    requires ValidFlags(prio, flags)
  {
    && i < |prio| && Acceptable(prio[i], allow, l)
    && forall j | 0 <= j < |prio| && Acceptable(prio[j], allow, l) ::
         && Group(flags, i) <= Group(flags, j)
         && (Group(flags, i) == Group(flags, j) ==> IndexIn(allow, prio[i]) <= IndexIn(allow, prio[j]))
  }

  ghost predicate IsChoice(prio: seq<CipherSuite>, flags: Option<seq<nat>>, allow: seq<CipherSuite>, l: Limits,
                           r: Option<CipherSuite>)
    requires ValidFlags(prio, flags)
  {
    match r
    case None => forall c <- prio :: !Acceptable(c, allow, l)
    case Some(c) => exists i: nat :: Best(prio, flags, allow, l, i) && prio[i] == c
  }

  /** There is one choice. */
  lemma ChoiceIsUnique(prio: seq<CipherSuite>, flags: Option<seq<nat>>, allow: seq<CipherSuite>, l: Limits,
                       a: Option<CipherSuite>, b: Option<CipherSuite>)
    requires ValidFlags(prio, flags) && IsChoice(prio, flags, allow, l, a) && IsChoice(prio, flags, allow, l, b)
    ensures a == b
  {
    if a.Some? && b.Some? {
      var i: nat :| Best(prio, flags, allow, l, i) && prio[i] == a.value;
      var j: nat :| Best(prio, flags, allow, l, j) && prio[j] == b.value;
      assert IndexIn(allow, prio[i]) == IndexIn(allow, prio[j]);
    }
  }

  /** Without groups the choice is the first acceptable cipher. */
  lemma WithoutGroupsFirst(prio: seq<CipherSuite>, allow: seq<CipherSuite>, l: Limits, r: Option<CipherSuite>, i: nat)
    requires IsChoice(prio, None, allow, l, r)
    requires i < |prio| && Acceptable(prio[i], allow, l) && forall j | 0 <= j < i :: !Acceptable(prio[j], allow, l)
    ensures r == Some(prio[i])
  {
    assert prio[i] in prio;
    var k: nat :| Best(prio, None, allow, l, k) && prio[k] == r.value;
    assert Group(None, k) <= Group(None, i);
  }

  /** What is chosen is offered by both sides, in the range of its versions, and not masked
      out; and something is chosen if there is any such cipher. */
  lemma ChoiceIsUsable(prio: seq<CipherSuite>, flags: Option<seq<nat>>, allow: seq<CipherSuite>, l: Limits,
                       r: Option<CipherSuite>)
    requires ValidFlags(prio, flags) && IsChoice(prio, flags, allow, l, r)
    ensures r.Some? ==>
              var c := r.value;
              && c in prio && c in allow && c.minVersion <= l.version <= c.maxVersion
              && c.mkey & l.maskK != 0 && c.auth & l.maskA != 0
    ensures r.None? ==>
              forall c <- prio :: c in allow && c.mkey & l.maskK != 0 && c.auth & l.maskA != 0 ==>
                l.version < c.minVersion || c.maxVersion < l.version
  {
    if r.Some? {
      var i: nat :| Best(prio, flags, allow, l, i) && prio[i] == r.value;
      assert prio[i] in prio;
    } else {
      assert forall c <- prio :: !Acceptable(c, allow, l);
    }
  }

  method Find(list: seq<CipherSuite>, c: CipherSuite) returns (index: Option<nat>)
    ensures index == if c in list then Some(IndexIn(list, c)) else None
  {
    for i := 0 to |list|
      invariant c !in list[..i]
    {
      if list[i] == c {
        FirstIsIndex(list, c, i);
        return Some(i);
      }
    }
    return None;
  }

  lemma FirstIsIndex(list: seq<CipherSuite>, c: CipherSuite, i: nat)
    requires i < |list| && list[i] == c && c !in list[..i]
    ensures c in list && IndexIn(list, c) == i
  {
  }

  /** What the search has seen before place i: only ciphers of the group at i, and the
      least index among them. */
  ghost predicate Searched(prio: seq<CipherSuite>, flags: Option<seq<nat>>, allow: seq<CipherSuite>, l: Limits,
                           i: nat, groupMin: Option<nat>)
    requires ValidFlags(prio, flags) && i <= |prio|
  {
    && (forall j | 0 <= j < i && Acceptable(prio[j], allow, l) ::
          Group(flags, j) == Group(flags, i) && groupMin.Some? && groupMin.value <= IndexIn(allow, prio[j]))
    && (groupMin.Some? ==>
          exists j: nat :: InGroup(prio, flags, allow, l, i, j) && IndexIn(allow, prio[j]) == groupMin.value)
  }

  ghost predicate InGroup(prio: seq<CipherSuite>, flags: Option<seq<nat>>, allow: seq<CipherSuite>, l: Limits,
                          i: nat, j: nat)
    requires ValidFlags(prio, flags) && i <= |prio|
  {
    j < i && Acceptable(prio[j], allow, l) && Group(flags, j) == Group(flags, i)
  }

  lemma LaterGroup(flags: Option<seq<nat>>, i: nat, m: nat)
    requires i < m && (flags.Some? ==> m <= |flags.value| && flags.value[i] != 1)
    ensures Group(flags, i) < Group(flags, m)
  {
    GroupMonotone(flags, i + 1, m);
  }

  /** Where a group ends with k the least index in it, that is the choice. */
  lemma GroupDecides(prio: seq<CipherSuite>, flags: Option<seq<nat>>, allow: seq<CipherSuite>, l: Limits, i: nat, k: nat)
    requires ValidFlags(prio, flags) && i < |prio| && k < |allow|
    requires flags.Some? ==> flags.value[i] == 0
    requires forall j | 0 <= j <= i && Acceptable(prio[j], allow, l) ::
               Group(flags, j) == Group(flags, i) && k <= IndexIn(allow, prio[j])
    requires exists j: nat :: 0 <= j <= i && Acceptable(prio[j], allow, l) && IndexIn(allow, prio[j]) == k
    ensures IsChoice(prio, flags, allow, l, Some(allow[k]))
  {
    hide Group, IndexIn, Acceptable;
    var j: nat :| 0 <= j <= i && Acceptable(prio[j], allow, l) && IndexIn(allow, prio[j]) == k;
    forall m | i < m < |prio| ensures Group(flags, i) < Group(flags, m) {
      LaterGroup(flags, i, m);
    }
    assert Best(prio, flags, allow, l, j);
  }

  /** The search through prio, one group at a time. */
  method ChooseFrom(prio: seq<CipherSuite>, flags: Option<seq<nat>>, allow: seq<CipherSuite>, l: Limits)
    returns (r: Option<CipherSuite>)
    requires ValidFlags(prio, flags)
    ensures IsChoice(prio, flags, allow, l, r)
  {
    var groupMin: Option<nat> := None;
    for i := 0 to |prio|
      invariant Searched(prio, flags, allow, l, i, groupMin)
    {
      var c := prio[i];
      assert flags.Some? ==> flags.value[i] in flags.value;
      ghost var groupMin0 := groupMin;
      var index := Find(allow, c);
      if Supported(c, l) && index.Some? {
        var cipherIndex := index.value;
        if flags.Some? && flags.value[i] == 1 {
          if groupMin.None? || groupMin.value > cipherIndex {
            groupMin := Some(cipherIndex);
          }
        } else {
          if groupMin.Some? && groupMin.value < cipherIndex {
            cipherIndex := groupMin.value;
          }
          GroupDecides(prio, flags, allow, l, i, cipherIndex);
          return Some(allow[cipherIndex]);
        }
      }
      if flags.Some? && flags.value[i] == 0 && groupMin.Some? {
        // The group is left with a match in it.
        GroupDecides(prio, flags, allow, l, i, groupMin.value);
        return Some(allow[groupMin.value]);
      }
      SearchGoesOn(prio, flags, allow, l, i, groupMin0, groupMin);
    }
    NothingLeft(prio, flags, allow, l, groupMin);
    return None;
  }

  lemma SearchGoesOn(prio: seq<CipherSuite>, flags: Option<seq<nat>>, allow: seq<CipherSuite>, l: Limits,
                     i: nat, before: Option<nat>, after: Option<nat>)
    requires ValidFlags(prio, flags) && i < |prio| && Searched(prio, flags, allow, l, i, before)
    requires flags.Some? && flags.value[i] == 1 && Acceptable(prio[i], allow, l) ==>
               after == (if before.None? || before.value > IndexIn(allow, prio[i]) then Some(IndexIn(allow, prio[i])) else before)
    requires !Acceptable(prio[i], allow, l) ==> after == before
    requires flags.None? || flags.value[i] == 0 ==> !Acceptable(prio[i], allow, l) && after.None?
    ensures Searched(prio, flags, allow, l, i + 1, after)
  {
    assert flags.Some? ==> flags.value[i] in flags.value;
    assert flags.Some? && flags.value[i] == 1 ==> Group(flags, i + 1) == Group(flags, i);
    if after.Some? && Acceptable(prio[i], allow, l) && after.value == IndexIn(allow, prio[i]) {
      assert InGroup(prio, flags, allow, l, i + 1, i);
    } else if after.Some? {
      var j: nat :| InGroup(prio, flags, allow, l, i, j) && IndexIn(allow, prio[j]) == after.value;
      assert InGroup(prio, flags, allow, l, i + 1, j);
    }
  }

  lemma NothingLeft(prio: seq<CipherSuite>, flags: Option<seq<nat>>, allow: seq<CipherSuite>, l: Limits,
                    groupMin: Option<nat>)
    requires ValidFlags(prio, flags) && Searched(prio, flags, allow, l, |prio|, groupMin)
    ensures forall c <- prio :: !Acceptable(c, allow, l)
  {
    forall j | 0 <= j < |prio| ensures !Acceptable(prio[j], allow, l) {
      GroupMonotone(flags, j, |prio| - 1);
    }
  }

  /** The server prefers its own order, or respects the client's. */
  method ChooseCipher(serverPreference: bool, serverCiphers: seq<CipherSuite>, inGroupFlags: seq<nat>,
                      clientCiphers: seq<CipherSuite>, l: Limits)
    returns (r: Option<CipherSuite>)
    requires ValidFlags(serverCiphers, Some(inGroupFlags))
    ensures serverPreference ==> IsChoice(serverCiphers, Some(inGroupFlags), clientCiphers, l, r)
    ensures !serverPreference ==> IsChoice(clientCiphers, None, serverCiphers, l, r)
  {
    if serverPreference {
      r := ChooseFrom(serverCiphers, Some(inGroupFlags), clientCiphers, l);
    } else {
      r := ChooseFrom(clientCiphers, None, serverCiphers, l);
    }
  }
}
