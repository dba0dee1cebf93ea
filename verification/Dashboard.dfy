/**
 * The listener callbacks of main.cpp: broadcasts collect channels, the first data after them
 * advertises the collection, and the first broadcast after data starts a new one.
 */
module Dashboard {

  datatype Event<C> = Broadcast(chan: C) | Data

  // activeChannels, data_mode, and the advertisements attempted with what each listed.
  datatype Screen<C> = Screen(active: seq<C>, dataMode: bool, adverts: seq<seq<C>>)

  function OnEvent<C>(s: Screen<C>, e: Event<C>): Screen<C> {
    match e
    case Broadcast(c) => Screen((if s.dataMode then [] else s.active) + [c], false, s.adverts)
    case Data => if s.dataMode then s else Screen(s.active, true, s.adverts + [s.active])
  }

  function After<C>(t: seq<Event<C>>): Screen<C> {
    if t == [] then Screen([], false, [])
    else OnEvent(After(t[..|t| - 1]), t[|t| - 1])
  }

  class App<C> {
    var activeChannels: seq<C>
    var dataMode: bool
    ghost var adverts: seq<seq<C>>

    ghost function View(): Screen<C>
      reads this
    {
      Screen(activeChannels, dataMode, adverts)
    }

    constructor ()
      ensures View() == After([])
    {
      activeChannels, dataMode, adverts := [], false, [];
    }

    method OnBroadcast(newChan: C)
      modifies this
      ensures View() == OnEvent(old(View()), Broadcast(newChan))
    {
      if dataMode {
        dataMode := false;
        activeChannels := [];
      }
      activeChannels := activeChannels + [newChan];
    }

    method OnData()
      modifies this
      ensures View() == OnEvent(old(View()), Data)
    {
      if !dataMode {
        dataMode := true;
        adverts := adverts + [activeChannels];
      }
    }
  }

  // ----- blocks of a trace, by position

  // t[b..e] is the last maximal block of consecutive broadcasts; empty only if there is none.
  predicate LastBlock<C>(t: seq<Event<C>>, b: nat, e: nat) {
    && b <= e <= |t|
    && (forall k | b <= k < e :: t[k].Broadcast?)
    && (forall k | e <= k < |t| :: t[k].Data?)
    && (b == 0 || t[b - 1].Data?)
    && (b == e ==> e == 0)
  }

  function Channels<C>(block: seq<Event<C>>): seq<C>
    requires forall k | 0 <= k < |block| :: block[k].Broadcast?
  {
    seq(|block|, k requires 0 <= k < |block| => block[k].chan)
  }

  // A data event that opens a block of data events.
  predicate OpensData<C>(t: seq<Event<C>>, i: nat) {
    i < |t| && t[i].Data? && (i == 0 || t[i - 1].Broadcast?)
  }

  function DataBlocks<C>(t: seq<Event<C>>, n: nat): nat
    requires n <= |t|
  {
    if n == 0 then 0 else DataBlocks(t, n - 1) + if OpensData(t, n - 1) then 1 else 0
  }

  lemma {:induction false} ModeIsLastEvent<C>(t: seq<Event<C>>)
    ensures After(t).dataMode <==> t != [] && t[|t| - 1].Data?
  {
  }

  lemma PrefixSlice<T>(t: seq<T>, b: nat, e: nat)
    requires b <= e < |t|
    ensures t[..|t| - 1][b..e] == t[b..e]
  {
  }

  // After any trace the active channels are exactly the last block of consecutive broadcasts.
  lemma {:induction false} ActiveIsLastBlock<C>(t: seq<Event<C>>, b: nat, e: nat)
    requires LastBlock(t, b, e)
    ensures After(t).active == Channels(t[b..e])
    decreases |t|
  {
    if t == [] {
    } else {
      var u := t[..|t| - 1];
      ModeIsLastEvent(u);
      if t[|t| - 1].Data? {
        assert LastBlock(u, b, e);
        ActiveIsLastBlock(u, b, e);
        PrefixSlice(t, b, e);
      } else {
        assert e == |t|;
        assert t[b..e] == t[b..e - 1] + [t[e - 1]];
        if b < |u| {
          assert LastBlock(u, b, |u|);
          ActiveIsLastBlock(u, b, |u|);
          PrefixSlice(t, b, |u|);
        } else if b == 0 {
          assert u == [];
        }
      }
    }
  }

  // Every trace has such a block.
  lemma {:induction false} LastBlockExists<C>(t: seq<Event<C>>) returns (b: nat, e: nat)
    ensures LastBlock(t, b, e)
    decreases |t|
  {
    if t == [] {
      b, e := 0, 0;
    } else {
      var u := t[..|t| - 1];
      b, e := LastBlockExists(u);
      if t[|t| - 1].Broadcast? {
        if e < |u| || u == [] {
          b := |u|;
        }
        e := |t|;
      }
    }
  }

  lemma {:induction false} DataBlocksPrefix<C>(t: seq<Event<C>>, e: Event<C>, n: nat)
    requires n <= |t|
    ensures DataBlocks(t + [e], n) == DataBlocks(t, n)
  {
    if n == 0 {
    } else {
      DataBlocksPrefix(t, e, n - 1);
    }
  }

  // One advertisement per maximal block of data events ...
  lemma {:induction false} AdvertsAreDataBlocks<C>(t: seq<Event<C>>)
    ensures |After(t).adverts| == DataBlocks(t, |t|)
    decreases |t|
  {
    if t == [] {
    } else {
      var u, last := t[..|t| - 1], t[|t| - 1];
      assert t == u + [last];
      AdvertsAreDataBlocks(u);
      ModeIsLastEvent(u);
      DataBlocksPrefix(u, last, |u|);
    }
  }

  // ... and each lists the channels active when its block opened.
  lemma {:induction false} AdvertListsChannels<C>(t: seq<Event<C>>, i: nat)
    requires OpensData(t, i)
    ensures DataBlocks(t, i) < |After(t).adverts|
    ensures After(t).adverts[DataBlocks(t, i)] == After(t[..i]).active
    decreases |t|
  {
    var u, last := t[..|t| - 1], t[|t| - 1];
    assert t == u + [last];
    DataBlocksPrefix(u, last, i);
    if i < |u| {
      assert OpensData(u, i) && u[..i] == t[..i];
      AdvertListsChannels(u, i);
    } else {
      AdvertsAreDataBlocks(u);
      ModeIsLastEvent(u);
    }
  }

  // ----- against all broadcasts so far

  function Broadcasts<C>(t: seq<Event<C>>): seq<C> {
    if t == [] then []
    else Broadcasts(t[..|t| - 1]) + if t[|t| - 1].Broadcast? then [t[|t| - 1].chan] else []
  }

  // A broadcast, then data, then a broadcast again.
  predicate Restarts<C>(t: seq<Event<C>>, i: nat, j: nat, k: nat) {
    i < j < k < |t| && t[i].Broadcast? && t[j].Data? && t[k].Broadcast?
  }

  ghost predicate NeverRestarts<C>(t: seq<Event<C>>) {
    forall i: nat, j: nat, k: nat :: !Restarts(t, i, j, k)
  }

  lemma {:induction false} NoBroadcasts<C>(t: seq<Event<C>>)
    ensures Broadcasts(t) == [] <==> forall i | 0 <= i < |t| :: t[i].Data?
  {
    if t == [] {
    } else {
      NoBroadcasts(t[..|t| - 1]);
    }
  }

  lemma RestartsOneMore<C>(u: seq<Event<C>>, e: Event<C>)
    ensures !NeverRestarts(u) ==> !NeverRestarts(u + [e])
    ensures e.Data? || (u != [] && u[|u| - 1].Broadcast?) || u == [] ==>
              (NeverRestarts(u + [e]) <==> NeverRestarts(u))
    ensures e.Broadcast? && u != [] && u[|u| - 1].Data? ==>
              (NeverRestarts(u + [e]) <==> forall i | 0 <= i < |u| :: u[i].Data?)
  {
    var t := u + [e];
    if i: nat, j: nat, k: nat :| Restarts(u, i, j, k) {
      assert Restarts(t, i, j, k);
    }
    if i: nat, j: nat, k: nat :| Restarts(t, i, j, k) {
      if k < |u| {
        assert Restarts(u, i, j, k);
      } else if u[|u| - 1].Broadcast? {
        assert Restarts(u, i, j, |u| - 1);
      }
    }
    if u != [] && u[|u| - 1].Data? && e.Broadcast? {
      forall i | 0 <= i < |u| && u[i].Broadcast?
        ensures Restarts(t, i, |u| - 1, |u|)
      {
      }
    }
  }

  lemma OneMoreEvent<C>(u: seq<Event<C>>, e: Event<C>)
    ensures After(u + [e]) == OnEvent(After(u), e)
    ensures Broadcasts(u + [e]) == Broadcasts(u) + if e.Broadcast? then [e.chan] else []
  {
    assert (u + [e])[..|u|] == u;
  }

  lemma NothingYet<C>()
    ensures After<C>([]).active == [] && Broadcasts<C>([]) == [] && NeverRestarts<C>([])
  {
  }

  // The active channels are the last of all channels broadcast so far, and all of them if and only if
  // no data came between two broadcasts.
  lemma {:induction false} ActiveAreLatest<C>(t: seq<Event<C>>)
    ensures var active, all := After(t).active, Broadcasts(t);
            && |active| <= |all| && active == all[|all| - |active|..]
            && (active == all <==> NeverRestarts(t))
    decreases |t|
  {
    hide NeverRestarts, After, Broadcasts;
    if t == [] {
      NothingYet<C>();
    } else {
      var u, e := t[..|t| - 1], t[|t| - 1];
      assert t == u + [e];
      OneMoreEvent(u, e);
      ActiveAreLatest(u);
      ModeIsLastEvent(u);
      NoBroadcasts(u);
      RestartsOneMore(u, e);
    }
  }
}
