/** The wallet's two chains of addresses, each kept some unused addresses ahead of the last one used. */
module GapLimit {
  import opened Options
  import opened Transaction

  /** Derives the address with a number in the internal or the external chain. Derivation can fail. */
  type Derivation = (bool, nat) -> Option<Address>

  ghost predicate Injective(derive: Derivation) {
    forall c: bool, m: nat, n: nat :: derive(c, m).Some? && derive(c, m) == derive(c, n) ==> m == n
  }

  /** The chain holds the derived addresses from number 0 on. */
  predicate Derived(derive: Derivation, internal: bool, chain: seq<Address>) {
    forall n :: 0 <= n < |chain| ==> derive(internal, n) == Some(chain[n])
  }

  function AsSet(chain: seq<Address>): set<Address> {
    set a | a in chain
  }

  /** Place i of the chain comes directly after the last used address. */
  predicate AfterLastUsed(chain: seq<Address>, used: set<Address>, i: nat) {
    && i <= |chain| && (i > 0 ==> chain[i - 1] in used)
    && forall n :: i <= n < |chain| ==> chain[n] !in used
  }

  class AddressChains {
    var internalChain: seq<Address>
    var externalChain: seq<Address>
    var allAddrs: set<Address>
    const derive: Derivation

    constructor (derive: Derivation)
      ensures this.derive == derive && internalChain == [] && externalChain == [] && Valid()
    {
      this.derive := derive;
      internalChain, externalChain, allAddrs := [], [], {};
    }

    predicate Valid()
      reads this
    {
      && Derived(derive, true, internalChain) && Derived(derive, false, externalChain)
      && allAddrs == AsSet(internalChain) + AsSet(externalChain)
    }

    function ChainOf(internal: bool): seq<Address>
      reads this
    {
      if internal then internalChain else externalChain
    }

    /** Generates addresses until there are gapLimit unused ones after the last used one, or derivation fails, and no
        more. The unused ones are returned if they are wanted and there are enough. Moved says whether the array of
        the chain has moved in growing, in which case the set of all addresses is built anew. */
    method UnusedAddrs(usedAddrs: set<Address>, gapLimit: nat, internal: bool, wanted: bool, moved: bool)
      returns (addrs: seq<Address>)
      requires Valid() && Injective(derive) && gapLimit > 0
      modifies this
      ensures Valid() && old(ChainOf(internal)) <= ChainOf(internal) && ChainOf(!internal) == old(ChainOf(!internal))
      ensures wanted ==> exists i: nat :: AfterLastUsed(ChainOf(internal), usedAddrs, i) &&
                           (if i + gapLimit <= |ChainOf(internal)| then addrs == ChainOf(internal)[i..i + gapLimit]
                            else addrs == [] && derive(internal, |ChainOf(internal)|).None?)
      ensures !wanted ==> addrs == []
      ensures forall i: nat :: AfterLastUsed(ChainOf(internal), usedAddrs, i) && i + gapLimit > |ChainOf(internal)| ==>
                derive(internal, |ChainOf(internal)|).None?
      ensures forall i: nat :: AfterLastUsed(ChainOf(internal), usedAddrs, i) ==>
                |ChainOf(internal)| <= |old(ChainOf(internal))| || |ChainOf(internal)| <= i + gapLimit
    {
      var startCount := |ChainOf(internal)|;
      var chain, i := Extend(ChainOf(internal), usedAddrs, gapLimit, internal);
      addrs := [];
      if wanted && i + gapLimit <= |chain| {
        addrs := chain[i..i + gapLimit];
      }
      PlaceIsUnique(chain, usedAddrs, i);
      CollectAddrs(chain, startCount, internal, moved);
      assert AfterLastUsed(ChainOf(internal), usedAddrs, i);
    }

    /** Finds the place after the last used address and generates addresses up to gapLimit from there. */
    method Extend(addrChain: seq<Address>, usedAddrs: set<Address>, gapLimit: nat, internal: bool)
      returns (chain: seq<Address>, i: nat)
      requires Derived(derive, internal, addrChain) && Injective(derive)
      ensures addrChain <= chain && Derived(derive, internal, chain) && AfterLastUsed(chain, usedAddrs, i)
      ensures i + gapLimit > |chain| ==> derive(internal, |chain|).None?
      ensures |chain| <= |addrChain| || |chain| <= i + gapLimit
    {
      chain := addrChain;
      i := |chain|;
      while i > 0 && chain[i - 1] !in usedAddrs
        invariant i <= |chain| && forall n :: i <= n < |chain| ==> chain[n] !in usedAddrs
      {
        i := i - 1;
      }
      while i + gapLimit > |chain|
        invariant addrChain <= chain && Derived(derive, internal, chain) && AfterLastUsed(chain, usedAddrs, i)
        invariant |chain| <= |addrChain| || |chain| <= i + gapLimit
        decreases usedAddrs - AsSet(chain), i + gapLimit - |chain|
      {
        var address := derive(internal, |chain|);
        if address.None? {
          return;
        }
        NewIsOther(derive, internal, chain, address.value);
        ghost var before := usedAddrs - AsSet(chain);
        chain := chain + [address.value];
        if address.value in usedAddrs {
          i := |chain|;
          assert address.value in before && address.value !in usedAddrs - AsSet(chain);
        } else {
          assert usedAddrs - AsSet(chain) == before;
        }
      }
    }

    /** Puts the grown chain in its place and the new addresses into the set of all addresses. */
    method CollectAddrs(chain: seq<Address>, startCount: nat, internal: bool, moved: bool)
      requires allAddrs == AsSet(internalChain) + AsSet(externalChain)
      requires startCount == |ChainOf(internal)| && ChainOf(internal) <= chain
      modifies this
      ensures ChainOf(internal) == chain && ChainOf(!internal) == old(ChainOf(!internal))
      ensures allAddrs == AsSet(internalChain) + AsSet(externalChain)
    {
      hide AsSet;
      SetGrows(chain, startCount);
      assert ChainOf(internal) == chain[..startCount];
      if internal {
        internalChain := chain;
      } else {
        externalChain := chain;
      }
      if !moved {
        AddAddrs(chain[startCount..]);
      } else {
        allAddrs := {};
        AddAddrs(internalChain);
        AddAddrs(externalChain);
      }
    }

    /** Adds addresses to the set of all addresses, from the last. */
    method AddAddrs(chain: seq<Address>)
      modifies this`allAddrs
      ensures allAddrs == old(allAddrs) + AsSet(chain)
    {
      var i := |chain|;
      assert chain[i..] == [];
      while i > 0
        invariant 0 <= i <= |chain| && allAddrs == old(allAddrs) + AsSet(chain[i..])
      {
        allAddrs := allAddrs + {chain[i - 1]};
        assert chain[i - 1..] == [chain[i - 1]] + chain[i..];
        i := i - 1;
      }
      assert chain[0..] == chain;
    }
  }

  lemma SetGrows(chain: seq<Address>, n: nat)
    requires n <= |chain|
    ensures AsSet(chain) == AsSet(chain[..n]) + AsSet(chain[n..])
  {
    assert chain == chain[..n] + chain[n..];
  }

  /** The next address is none of those in the chain. */
  lemma NewIsOther(derive: Derivation, internal: bool, chain: seq<Address>, a: Address)
    requires Injective(derive) && Derived(derive, internal, chain) && derive(internal, |chain|) == Some(a)
    ensures a !in chain && AsSet(chain + [a]) == AsSet(chain) + {a}
  {
    forall n: nat | n < |chain| ensures chain[n] != a {
      assert derive(internal, n) == Some(chain[n]);
    }
  }

  /** There is only one place directly after the last used address. */
  lemma PlaceIsUnique(chain: seq<Address>, used: set<Address>, i: nat)
    requires AfterLastUsed(chain, used, i)
    ensures forall k: nat :: AfterLastUsed(chain, used, k) ==> k == i
  {
    forall k: nat | AfterLastUsed(chain, used, k) ensures k == i {
      if k < i {
        assert false;
      } else if i < k {
        assert false;
      }
    }
  }

  /** The addresses returned are consecutive, derived, unused, and as many as asked for when derivation succeeds. */
  lemma GapIsFilled(derive: Derivation, internal: bool, chain: seq<Address>, used: set<Address>, gapLimit: nat, i: nat)
    requires Derived(derive, internal, chain) && AfterLastUsed(chain, used, i)
    requires i + gapLimit > |chain| ==> derive(internal, |chain|).None?
    requires forall n: nat :: derive(internal, n).Some?
    ensures i + gapLimit <= |chain|
    ensures forall n: nat :: i <= n < i + gapLimit ==> derive(internal, n) == Some(chain[n]) && chain[n] !in used
  {
  }
}
