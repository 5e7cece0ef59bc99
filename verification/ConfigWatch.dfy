/**
 config/config_watcher.go: publication of reloaded configurations to subscribers with
 one-place channels that are never waited for.
*/
module ConfigWatch {
  import opened Options
  import opened Collections

  datatype Config = Config(version: nat, valid: bool)

  /** What a subscriber has seen: which stored configurations it was handed and which it missed. */
  datatype History = History(joined: nat, received: seq<Config>, picks: seq<nat>, missed: set<nat>)

  function Waiting(channel: Option<Config>): seq<Config> {
    if channel.Some? then [channel.value] else []
  }

  /**
   Received configurations followed by the waiting one are stored ones, in storing order; the
   stored ones left out since the subscription are exactly those missed.
  */
  ghost predicate Faithful(h: History, channel: Option<Config>, stored: seq<Config>) {
    var seen := h.received + Waiting(channel);
    && h.joined <= |stored| && |h.picks| == |seen| && Ascending(h.picks)
    && (forall a | 0 <= a < |seen| :: h.joined <= h.picks[a] < |stored| && stored[h.picks[a]] == seen[a])
    && (forall k | h.joined <= k < |stored| :: k in h.picks <==> k !in h.missed)
    && (forall k | k in h.missed :: h.joined <= k < |stored|)
  }

  class ConfigWatcher {
    var currentConfig: Config
    var subscribers: seq<Option<Config>>
    ghost var stored: seq<Config>
    ghost var histories: seq<History>

    ghost predicate Valid()
      reads this
    {
      && stored != [] && currentConfig == stored[|stored| - 1]
      && (forall k | 0 <= k < |stored| :: stored[k].valid)
      && |histories| == |subscribers|
      && (forall i | 0 <= i < |subscribers| :: Faithful(histories[i], subscribers[i], stored))
    }

    /** Started on a configuration that has been loaded, and so validated. */
    constructor (initial: Config)
      requires initial.valid
      ensures Valid() && stored == [initial] && subscribers == []
    {
      currentConfig, subscribers, stored, histories := initial, [], [initial], [];
    }

    method Subscribe() returns (id: nat)
      requires Valid()
      modifies this`subscribers, this`histories
      ensures Valid() && id == |old(subscribers)|
      ensures subscribers == old(subscribers) + [None]
      ensures histories == old(histories) + [History(|stored|, [], [], {})]
    {
      id := |subscribers|;
      subscribers := subscribers + [None];
      histories := histories + [History(|stored|, [], [], {})];
    }

    /** A subscriber takes the waiting configuration, if any. */
    method Receive(id: nat) returns (config: Option<Config>)
      requires Valid() && id < |subscribers|
      modifies this`subscribers, this`histories
      ensures Valid() && config == old(subscribers)[id]
      ensures subscribers == old(subscribers)[id := None]
      ensures histories == old(histories)[id := old(histories)[id].(
                received := old(histories)[id].received + Waiting(config))]
    {
      config := subscribers[id];
      var h := histories[id];
      assert h.received + Waiting(config) == (h.received + Waiting(config)) + Waiting(None);
      histories := histories[id := h.(received := h.received + Waiting(config))];
      subscribers := subscribers[id := None];
    }

    /**
     A change of the file. If it cannot be loaded or is invalid nothing changes. Otherwise it
     becomes the current configuration, and every subscriber whose channel is empty gets it;
     the others miss it and keep the older one waiting.
    */
    method HandleConfigChange(loaded: Option<Config>)
      requires Valid()
      modifies this
      ensures Valid()
      ensures loaded.None? || !loaded.value.valid ==>
                currentConfig == old(currentConfig) && subscribers == old(subscribers) &&
                stored == old(stored) && histories == old(histories)
      ensures loaded.Some? && loaded.value.valid ==>
                && currentConfig == loaded.value && stored == old(stored) + [loaded.value]
                && |subscribers| == |old(subscribers)|
                && (forall i | 0 <= i < |subscribers| ::
                      && subscribers[i] == (if old(subscribers)[i].None? then loaded else old(subscribers)[i])
                      && histories[i].received == old(histories)[i].received
                      && histories[i].missed == old(histories)[i].missed +
                         (if old(subscribers)[i].None? then {} else {|old(stored)|}))
    {
      if loaded.None? {
        return;
      }
      var newConfig := loaded.value;
      if !newConfig.valid {
        return;
      }
      currentConfig := newConfig;
      ghost var position := |stored|;
      stored := stored + [newConfig];
      var i := 0;
      while i < |subscribers|
        invariant 0 <= i <= |subscribers| == |old(subscribers)| && |histories| == |subscribers|
        invariant currentConfig == newConfig && stored == old(stored) + [newConfig]
        invariant forall k | i <= k < |subscribers| ::
          subscribers[k] == old(subscribers)[k] && histories[k] == old(histories)[k]
        invariant forall k | 0 <= k < i ::
          && Faithful(histories[k], subscribers[k], stored)
          && subscribers[k] == (if old(subscribers)[k].None? then loaded else old(subscribers)[k])
          && histories[k].received == old(histories)[k].received
          && histories[k].missed == old(histories)[k].missed + (if old(subscribers)[k].None? then {} else {position})
      {
        ghost var h := histories[i];
        PublishKeeps(h, subscribers[i], old(stored), newConfig);
        if subscribers[i].None? {
          subscribers := subscribers[i := Some(newConfig)];
          histories := histories[i := h.(picks := h.picks + [position])];
        } else {
          histories := histories[i := h.(missed := h.missed + {position})];
        }
        i := i + 1;
      }
    }
  }

  lemma PublishKeeps(h: History, channel: Option<Config>, stored: seq<Config>, c: Config)
    requires Faithful(h, channel, stored)
    ensures channel.None? ==> Faithful(h.(picks := h.picks + [|stored|]), Some(c), stored + [c])
    ensures channel.Some? ==> Faithful(h.(missed := h.missed + {|stored|}), channel, stored + [c])
  {
    var longer := stored + [c];
    assert forall k | 0 <= k < |stored| :: longer[k] == stored[k];
    if channel.None? {
      var picks := h.picks + [|stored|];
      assert h.received + Waiting(None) == h.received;
      assert forall k :: k in picks <==> k in h.picks || k == |stored|;
    } else {
      assert forall k | k in h.picks :: k < |stored|;
    }
  }

  /** Ascending positions in an interval: as many as it is long just when none is left out. */
  lemma {:induction false} AscendingInterval(picks: seq<nat>, lo: nat, hi: nat)
    requires Ascending(picks) && lo <= hi && forall a | 0 <= a < |picks| :: lo <= picks[a] < hi
    ensures |picks| <= hi - lo
    ensures |picks| == hi - lo <==> forall k | lo <= k < hi :: k in picks
    ensures |picks| == hi - lo ==> forall a | 0 <= a < |picks| :: picks[a] == lo + a
    decreases hi
  {
    if picks != [] {
      var n := |picks| - 1;
      var front, top := picks[..n], picks[n];
      assert picks == front + [top];
      AscendingInterval(front, lo, top);
      assert forall k :: k in picks <==> k in front || k == top;
      assert top < hi - 1 ==> hi - 1 !in picks;
    } else {
      assert lo < hi ==> lo !in picks;
    }
  }

  /** A subscriber that missed nothing, and no other, has every configuration stored since it joined. */
  lemma AttentiveSubscriberSeesAll(h: History, channel: Option<Config>, stored: seq<Config>)
    requires Faithful(h, channel, stored)
    ensures h.missed == {} <==> |h.received + Waiting(channel)| == |stored| - h.joined
    ensures h.missed == {} ==> h.received + Waiting(channel) == stored[h.joined..]
  {
    AscendingInterval(h.picks, h.joined, |stored|);
    if |h.picks| == |stored| - h.joined {
      assert forall k :: k !in h.missed;
    }
  }
}
