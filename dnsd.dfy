/**
 * The DNS daemon's own state: its configuration check, the shard queues it
 * creates, the client allow-list that refreshes itself with the host's public
 * IP address, and the ad-server blacklist. Sockets, goroutines, mutexes, the
 * rate limiter and logging are not modelled; the clock, the public-IP lookup,
 * the outcome of dialling the forwarder and the downloaded lists are inputs.
 */
module Dnsd {
  import opened Wrappers
  import opened Strings
  import opened AdBlockLists

  /** One shard queue is created per this many allowed queries per IP. */
  const NumQueueRatio := 10
  /** The public IP is placed on the allow-list at most once per this many seconds. */
  const PublicIPRefreshIntervalSec := 1800
  /** Capacity of each forward queue. */
  const ForwarderQueueDepth := 16
  /** Capacity of each black-hole queue. */
  const BlackHoleQueueDepth := 4

  /** A queue slot: a nil channel, or a buffered channel of the given capacity. */
  datatype Queue = Nil | Chan(capacity: nat)

  /** The configuration errors Initialise reports, in the order it checks them. */
  datatype InitError =
    | EmptyAddress
    | NoListenPort
    | NoForwarder
    | PerIPLimitTooLow
    | NoAllowedPrefixes
    | EmptyAllowedPrefix
    | ForwarderUnreachable   // resolving or dialling the UDP forwarder failed

  /* ------------------------------------------------------- allow-list */

  /** Some prefix on the list is a literal (not CIDR) prefix of the client's address. */
  predicate Allows(prefixes: seq<string>, clientIP: string)
  {
    exists k :: 0 <= k < |prefixes| && HasPrefix(clientIP, prefixes[k])
  }

  /** The refresh is due once more than the interval has passed since the last one. */
  predicate RefreshDue(lastUpdate: int, now: int)
  {
    lastUpdate + PublicIPRefreshIntervalSec < now
  }

  /**
   * The allow-list after learning the public IP `latestIP`: an empty answer
   * (the lookup failed) or an address already listed leaves it alone, any other
   * address is appended.
   */
  function AllowListAfter(prefixes: seq<string>, latestIP: string): seq<string>
  {
    if latestIP == "" || latestIP in prefixes then prefixes else prefixes + [latestIP]
  }

  /** The list only grows: every earlier entry keeps its place, and at most one is added. */
  lemma AllowListKeeps(prefixes: seq<string>, latestIP: string)
    ensures var r := AllowListAfter(prefixes, latestIP);
      && |prefixes| <= |r| <= |prefixes| + 1
      && forall k :: 0 <= k < |prefixes| ==> r[k] == prefixes[k]
  {
  }

  /** After a refresh with a non-empty address, that address is on the list and allowed. */
  lemma AllowListHasOwnIP(prefixes: seq<string>, latestIP: string)
    requires latestIP != ""
    ensures latestIP in AllowListAfter(prefixes, latestIP)
    ensures Allows(AllowListAfter(prefixes, latestIP), latestIP)
  {
    var r := AllowListAfter(prefixes, latestIP);
    var k :| 0 <= k < |r| && r[k] == latestIP;
    assert HasPrefix(latestIP, r[k]);
  }

  /** A client allowed before a refresh is still allowed after it. */
  lemma AllowListMonotone(prefixes: seq<string>, latestIP: string, clientIP: string)
    requires Allows(prefixes, clientIP)
    ensures Allows(AllowListAfter(prefixes, latestIP), clientIP)
  {
    var k :| 0 <= k < |prefixes| && HasPrefix(clientIP, prefixes[k]);
    AllowListKeeps(prefixes, latestIP);
    assert AllowListAfter(prefixes, latestIP)[k] == prefixes[k];
  }

  /** Refreshing twice with the same address changes nothing the second time. */
  lemma AllowListIdempotent(prefixes: seq<string>, latestIP: string)
    ensures AllowListAfter(AllowListAfter(prefixes, latestIP), latestIP) == AllowListAfter(prefixes, latestIP)
  {
    if latestIP != "" && latestIP !in prefixes {
      assert (prefixes + [latestIP])[|prefixes|] == latestIP;
    }
  }

  /** A list without repeated entries keeps that property across a refresh. */
  lemma AllowListNoDuplicates(prefixes: seq<string>, latestIP: string)
    requires forall i, j :: 0 <= i < j < |prefixes| ==> prefixes[i] != prefixes[j]
    ensures var r := AllowListAfter(prefixes, latestIP);
      forall i, j :: 0 <= i < j < |r| ==> r[i] != r[j]
  {
    var r := AllowListAfter(prefixes, latestIP);
    if r != prefixes {
      forall i, j | 0 <= i < j < |r| ensures r[i] != r[j] {
        if j == |prefixes| {
          assert r[i] == prefixes[i];
          assert prefixes[i] in prefixes;
        }
      }
    }
  }

  /**
   * The empty string is a prefix of every address: a list holding it allows
   * every client, and only such a list allows the empty address. This is why
   * Initialise refuses an empty prefix.
   */
  lemma EmptyPrefixAllowsAll(prefixes: seq<string>)
    ensures Allows(prefixes, "") <==> "" in prefixes
    ensures "" in prefixes ==> forall clientIP :: Allows(prefixes, clientIP)
  {
    if "" in prefixes {
      var k :| 0 <= k < |prefixes| && prefixes[k] == "";
      forall clientIP ensures Allows(prefixes, clientIP) {
        assert HasPrefix(clientIP, prefixes[k]);
      }
    }
    if Allows(prefixes, "") {
      var k :| 0 <= k < |prefixes| && HasPrefix("", prefixes[k]);
      assert prefixes[k] == "";
    }
  }

  /**
   * Matching is textual: the prefix "10.0.0.1" admits 10.0.0.123, an address
   * outside the host it names.
   */
  lemma TextualPrefixMatch()
    ensures Allows(["10.0.0.1"], "10.0.0.123")
  {
    var prefixes := ["10.0.0.1"];
    assert HasPrefix("10.0.0.123", prefixes[0]);
  }

  /* ----------------------------------------------------------- shards */

  /** The first index below `n` whose dial fails, or `n` when all succeed. */
  function FirstFailure(dialSucceeds: nat -> bool, from: nat, n: nat): (r: nat)
    requires from <= n
    ensures from <= r <= n
    ensures forall k :: from <= k < r ==> dialSucceeds(k)
    ensures r < n ==> !dialSucceeds(r)
    decreases n - from
  {
    if from == n || !dialSucceeds(from) then from else FirstFailure(dialSucceeds, from + 1, n)
  }

  /** `n` queue slots whose first `made` hold channels of the given depth, the rest nil. */
  function Shards(n: nat, made: nat, depth: nat): seq<Queue>
  {
    seq(n, k => if k < made then Chan(depth) else Nil)
  }

  /* ------------------------------------------------------------ daemon */

  class DNSD {
    var Address: string
    var UDPPort: int
    var UDPForwarder: string
    var UDPForwarderQueues: seq<Queue>
    var UDPBlackHoleQueues: seq<Queue>
    var TCPPort: int
    var TCPForwarder: string
    var AllowQueryIPPrefixes: seq<string>
    var allowQueryLastUpdate: int
    var PerIPLimit: int
    var BlackList: set<string>

    /** A daemon as read from its configuration, not yet initialised. */
    constructor(address: string, udpPort: int, udpForwarder: string, tcpPort: int, tcpForwarder: string,
                allowQueryIPPrefixes: seq<string>, perIPLimit: int)
      ensures Address == address && UDPPort == udpPort && UDPForwarder == udpForwarder
      ensures TCPPort == tcpPort && TCPForwarder == tcpForwarder
      ensures AllowQueryIPPrefixes == allowQueryIPPrefixes && PerIPLimit == perIPLimit
      ensures allowQueryLastUpdate == 0 && BlackList == {}
      ensures UDPForwarderQueues == [] && UDPBlackHoleQueues == []
    {
      Address, UDPPort, UDPForwarder := address, udpPort, udpForwarder;
      TCPPort, TCPForwarder := tcpPort, tcpForwarder;
      AllowQueryIPPrefixes, PerIPLimit := allowQueryIPPrefixes, perIPLimit;
      allowQueryLastUpdate, BlackList := 0, {};
      UDPForwarderQueues, UDPBlackHoleQueues := [], [];
    }

    /**
     * The first configuration error Initialise reports, if any. A configuration
     * passes exactly when the address is set, some port is positive, some
     * forwarder is set, PerIPLimit is at least 10 and the allow-list is
     * non-empty with no empty entry.
     */
    function ConfigError(): (r: Option<InitError>)
      reads this
      ensures r.None? <==>
        && Address != ""
        && (UDPPort >= 1 || TCPPort >= 1)
        && (UDPForwarder != "" || TCPForwarder != "")
        && PerIPLimit >= 10
        && |AllowQueryIPPrefixes| > 0
        && forall k :: 0 <= k < |AllowQueryIPPrefixes| ==> AllowQueryIPPrefixes[k] != ""
    {
      if Address == "" then Some(EmptyAddress)
      else if UDPPort < 1 && TCPPort < 1 then Some(NoListenPort)
      else if UDPForwarder == "" && TCPForwarder == "" then Some(NoForwarder)
      else if PerIPLimit < 10 then Some(PerIPLimitTooLow)
      else if |AllowQueryIPPrefixes| == 0 then Some(NoAllowedPrefixes)
      else if "" in AllowQueryIPPrefixes then Some(EmptyAllowedPrefix)
      else None
    }

    /**
     * allowMyPublicIP: at most once per refresh interval, place the public IP
     * `latestIP` (empty when the lookup failed) on the allow-list and record
     * the time, whether or not the lookup succeeded.
     */
    method AllowMyPublicIP(now: int, latestIP: string)
      modifies this`AllowQueryIPPrefixes, this`allowQueryLastUpdate
      ensures !RefreshDue(old(allowQueryLastUpdate), now) ==>
        AllowQueryIPPrefixes == old(AllowQueryIPPrefixes) && allowQueryLastUpdate == old(allowQueryLastUpdate)
      ensures RefreshDue(old(allowQueryLastUpdate), now) ==>
        AllowQueryIPPrefixes == AllowListAfter(old(AllowQueryIPPrefixes), latestIP) && allowQueryLastUpdate == now
    {
      if !RefreshDue(allowQueryLastUpdate, now) {
        return;
      }
      allowQueryLastUpdate := now;
      if latestIP == "" {
        return;
      }
      var foundMyIP := false;
      var i := 0;
      while i < |AllowQueryIPPrefixes|
        invariant 0 <= i <= |AllowQueryIPPrefixes|
        invariant foundMyIP <==> latestIP in AllowQueryIPPrefixes[..i]
      {
        if AllowQueryIPPrefixes[i] == latestIP {
          foundMyIP := true;
          assert AllowQueryIPPrefixes[..i + 1] == AllowQueryIPPrefixes[..i] + [latestIP];
          break;
        }
        assert AllowQueryIPPrefixes[..i + 1] == AllowQueryIPPrefixes[..i] + [AllowQueryIPPrefixes[i]];
        i := i + 1;
      }
      assert foundMyIP <==> latestIP in AllowQueryIPPrefixes by {
        if !foundMyIP {
          assert AllowQueryIPPrefixes[..i] == AllowQueryIPPrefixes;
        }
      }
      if !foundMyIP {
        AllowQueryIPPrefixes := AllowQueryIPPrefixes + [latestIP];
      }
    }

    /**
     * checkAllowClientIP: refresh the allow-list when due, then admit the
     * client exactly when one of the listed prefixes is a prefix of its address.
     */
    method CheckAllowClientIP(now: int, latestIP: string, clientIP: string) returns (allowed: bool)
      modifies this`AllowQueryIPPrefixes, this`allowQueryLastUpdate
      ensures !RefreshDue(old(allowQueryLastUpdate), now) ==>
        AllowQueryIPPrefixes == old(AllowQueryIPPrefixes) && allowQueryLastUpdate == old(allowQueryLastUpdate)
      ensures RefreshDue(old(allowQueryLastUpdate), now) ==>
        AllowQueryIPPrefixes == AllowListAfter(old(AllowQueryIPPrefixes), latestIP) && allowQueryLastUpdate == now
      ensures allowed <==> Allows(AllowQueryIPPrefixes, clientIP)
    {
      AllowMyPublicIP(now, latestIP);
      var i := 0;
      while i < |AllowQueryIPPrefixes|
        invariant 0 <= i <= |AllowQueryIPPrefixes|
        invariant forall k :: 0 <= k < i ==> !HasPrefix(clientIP, AllowQueryIPPrefixes[k])
      {
        if HasPrefix(clientIP, AllowQueryIPPrefixes[i]) {
          return true;
        }
        i := i + 1;
      }
      return false;
    }

    /**
     * Initialise: check the configuration; then empty the blacklist, create
     * PerIPLimit / 10 forward and black-hole queue slots and fill them one
     * shard at a time, dialling the forwarder for each (the i-th dial succeeds
     * when `dialSucceeds(i)`); stop at the first failed dial; finally refresh
     * the allow-list with the public IP.
     */
    method Initialise(now: int, publicIP: string, dialSucceeds: nat -> bool) returns (err: Option<InitError>)
      modifies this
      ensures old(ConfigError()).Some? ==> err == old(ConfigError()) && unchanged(this)
      ensures old(ConfigError()).None? ==>
        var n := old(PerIPLimit) / NumQueueRatio;
        var made := FirstFailure(dialSucceeds, 0, n);
        && err == (if made < n then Some(ForwarderUnreachable) else None)
        && BlackList == {}
        && UDPForwarderQueues == Shards(n, made, ForwarderQueueDepth)
        && UDPBlackHoleQueues == Shards(n, made, BlackHoleQueueDepth)
        && (made < n ==>
              AllowQueryIPPrefixes == old(AllowQueryIPPrefixes) && allowQueryLastUpdate == old(allowQueryLastUpdate))
        && (made == n && RefreshDue(old(allowQueryLastUpdate), now) ==>
              AllowQueryIPPrefixes == AllowListAfter(old(AllowQueryIPPrefixes), publicIP) && allowQueryLastUpdate == now)
        && (made == n && !RefreshDue(old(allowQueryLastUpdate), now) ==>
              AllowQueryIPPrefixes == old(AllowQueryIPPrefixes) && allowQueryLastUpdate == old(allowQueryLastUpdate))
      ensures Address == old(Address) && UDPPort == old(UDPPort) && UDPForwarder == old(UDPForwarder)
      ensures TCPPort == old(TCPPort) && TCPForwarder == old(TCPForwarder) && PerIPLimit == old(PerIPLimit)
    {
      err := ConfigError();
      if err.Some? {
        return;
      }
      BlackList := {};
      var numQueues := PerIPLimit / NumQueueRatio;
      UDPForwarderQueues := Shards(numQueues, 0, ForwarderQueueDepth);
      UDPBlackHoleQueues := Shards(numQueues, 0, BlackHoleQueueDepth);
      var i := 0;
      while i < numQueues
        invariant 0 <= i <= numQueues
        invariant forall k :: 0 <= k < i ==> dialSucceeds(k)
        invariant UDPForwarderQueues == Shards(numQueues, i, ForwarderQueueDepth)
        invariant UDPBlackHoleQueues == Shards(numQueues, i, BlackHoleQueueDepth)
        invariant AllowQueryIPPrefixes == old(AllowQueryIPPrefixes) && allowQueryLastUpdate == old(allowQueryLastUpdate)
        invariant Address == old(Address) && UDPPort == old(UDPPort) && UDPForwarder == old(UDPForwarder)
        invariant TCPPort == old(TCPPort) && TCPForwarder == old(TCPForwarder) && PerIPLimit == old(PerIPLimit)
        invariant BlackList == {}
      {
        if !dialSucceeds(i) {
          assert FirstFailure(dialSucceeds, 0, numQueues) == i by {
            FirstFailureAt(dialSucceeds, numQueues, i);
          }
          return Some(ForwarderUnreachable);
        }
        UDPForwarderQueues := UDPForwarderQueues[i := Chan(ForwarderQueueDepth)];
        UDPBlackHoleQueues := UDPBlackHoleQueues[i := Chan(BlackHoleQueueDepth)];
        i := i + 1;
      }
      assert FirstFailure(dialSucceeds, 0, numQueues) == numQueues by {
        FirstFailureAt(dialSucceeds, numQueues, numQueues);
      }
      AllowMyPublicIP(now, publicIP);
    }

    /** NamesAreBlackListed: some name of the list is on the blacklist. */
    method NamesAreBlackListed(names: seq<string>) returns (blacklisted: bool)
      ensures blacklisted <==> exists k :: 0 <= k < |names| && names[k] in BlackList
    {
      var i := 0;
      while i < |names|
        invariant 0 <= i <= |names|
        invariant forall k :: 0 <= k < i ==> names[k] !in BlackList
      {
        if names[i] in BlackList {
          return true;
        }
        i := i + 1;
      }
      return false;
    }

    /**
     * UpdatedAdBlockLists: rebuild the blacklist from scratch out of the lists
     * that downloaded successfully. When both downloads fail the blacklist
     * ends up empty.
     */
    method UpdatedAdBlockLists(pglFetched: Option<string>, mvpsFetched: Option<string>)
      modifies this`BlackList
      ensures BlackList == Entries(PglOutcome(pglFetched)) + Entries(MvpsOutcome(mvpsFetched))
      ensures PglOutcome(pglFetched).Failure? && MvpsOutcome(mvpsFetched).Failure? ==> BlackList == {}
    {
      var pglEntries := GetAdBlacklistPGL(pglFetched);
      var mvpsEntries := GetAdBlacklistMVPS(mvpsFetched);
      BlackList := {};
      if pglEntries.Success? {
        AddAll(pglEntries.value);
      }
      if mvpsEntries.Success? {
        AddAll(mvpsEntries.value);
      }
    }

    /** Put every name of the list on the blacklist. */
    method AddAll(names: seq<string>)
      modifies this`BlackList
      ensures BlackList == old(BlackList) + set k | 0 <= k < |names| :: names[k]
    {
      var i := 0;
      while i < |names|
        invariant 0 <= i <= |names|
        invariant BlackList == old(BlackList) + set k | 0 <= k < i :: names[k]
      {
        BlackList := BlackList + {names[i]};
        i := i + 1;
      }
    }
  }

  /** The names a download contributes: all of them on success, none on failure. */
  function Entries(outcome: Result<seq<string>, ListError>): (r: set<string>)
    ensures outcome.Failure? ==> r == {}
    ensures outcome.Success? ==> forall name :: name in r <==> name in outcome.value
  {
    if outcome.Failure? then {} else set k | 0 <= k < |outcome.value| :: outcome.value[k]
  }

  /** FirstFailure finds exactly the index of the first failed dial. */
  lemma FirstFailureAt(dialSucceeds: nat -> bool, n: nat, i: nat)
    requires i <= n
    requires forall k :: 0 <= k < i ==> dialSucceeds(k)
    requires i < n ==> !dialSucceeds(i)
    ensures FirstFailure(dialSucceeds, 0, n) == i
  {
  }

  /**
   * An accepted configuration creates at least one shard, and its allow-list
   * refuses a client whose address is empty.
   */
  lemma AcceptedConfig(d: DNSD)
    requires d.ConfigError().None?
    ensures d.PerIPLimit / NumQueueRatio >= 1
    ensures !Allows(d.AllowQueryIPPrefixes, "")
  {
    EmptyPrefixAllowsAll(d.AllowQueryIPPrefixes);
  }
}
