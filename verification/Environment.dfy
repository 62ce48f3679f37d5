/** What the pool is built on and does not control: Neutron and the clock. */
module Environments {
  import opened PoolTypes

  ghost predicate LongerThanAll(keys: set<string>, n: nat) {
    forall k | k in keys :: |k| < n
  }

  lemma {:induction false} BoundLengths(keys: set<string>) returns (n: nat)
    ensures n > 0 && LongerThanAll(keys, n)
    decreases keys
  {
    if keys == {} {
      n := 1;
    } else {
      var k :| k in keys;
      var m := BoundLengths(keys - {k});
      n := m + |k| + 1;
      forall j | j in keys
        ensures |j| < n
      {
        assert j != k ==> j in keys - {k};
      }
    }
  }

  /** There is always an id Neutron has not given out. */
  lemma UnusedId(keys: set<string>)
    ensures exists id: string :: id != "" && id !in keys
  {
    var n := BoundLengths(keys);
    var id := seq(n, _ => 'p');
    assert |id| == n;
    assert id != "" && id !in keys;
  }

  /**
   * Neutron as this node sees it, and the clock. Calls fail at will, but only
   * `faults` more times: the loop of checkIdle ends only if Dispose does not
   * fail for ever.
   */
  class Environment {
    var cloud: map<string, Port>
    var now: int
    var faults: nat

    constructor ()
      ensures cloud == map[]
    {
      cloud := map[];
      now := *;
      faults := *;
    }

    /** `PortFactory.Create`: a port with a new id, and the address asked for if any. */
    method Create(ip: string) returns (made: Option<Port>)
      modifies this
      ensures now == old(now)
      ensures made.Some? ==>
                && made.value.id != "" && made.value.id !in old(cloud)
                && (ip != "" ==> made.value.ip == ip)
                && cloud == old(cloud)[made.value.id := made.value] && faults == old(faults)
      ensures made.None? ==> faults == old(faults) - 1 && cloud == old(cloud)
    {
      var fail: bool := *;
      if fail && faults > 0 {
        faults := faults - 1;
        return None;
      }
      UnusedId(cloud.Keys);
      var id :| id != "" && id !in cloud.Keys;
      var address: string := *;
      var port := Port(id, if ip != "" then ip else address);
      cloud := cloud[id := port];
      return Some(port);
    }

    /** `PortFactory.Dispose`: the port is gone, or an error and the port is still there. */
    method Dispose(port: Port) returns (ok: bool)
      modifies this
      ensures now == old(now)
      ensures ok ==> cloud == old(cloud) - {port.id} && faults == old(faults)
      ensures !ok ==> faults == old(faults) - 1 && cloud == old(cloud)
    {
      var fail: bool := *;
      if fail && faults > 0 {
        faults := faults - 1;
        return false;
      }
      cloud := cloud - {port.id};
      return true;
    }

    method Now() returns (t: int)
      modifies this`now
      ensures now == t >= old(now)
    {
      var passed: int :| passed >= 0;
      now := now + passed;
      return now;
    }

    /** `ListPortWithFilter`: every port once, in no particular order. */
    method List() returns (ports: Option<seq<Port>>)
      requires forall k | k in cloud :: cloud[k].id == k
      modifies this`faults
      ensures ports.None? ==> faults < old(faults)
      ensures ports.Some? ==> faults == old(faults) && Lists(ports.value, cloud)
    {
      var fail: bool := *;
      if fail && faults > 0 {
        faults := faults - 1;
        return None;
      }
      var left := cloud.Keys;
      var all: seq<Port> := [];
      while left != {}
        invariant left <= cloud.Keys
        invariant forall i | 0 <= i < |all| ::
                    all[i].id in cloud && all[i].id !in left && cloud[all[i].id] == all[i]
        invariant forall i, j | 0 <= i < j < |all| :: all[i].id != all[j].id
        invariant forall k | k in cloud && k !in left :: exists i :: 0 <= i < |all| && all[i].id == k
        decreases left
      {
        var k :| k in left;
        ghost var before := all;
        all := all + [cloud[k]];
        left := left - {k};
        assert all[|before|].id == k;
        forall j | j in cloud && j !in left
          ensures exists i :: 0 <= i < |all| && all[i].id == j
        {
          if j != k {
            var i :| 0 <= i < |before| && before[i].id == j;
            assert all[i].id == j;
          }
        }
      }
      return Some(all);
    }
  }

  /** The listing names every port of the cloud exactly once. */
  ghost predicate Lists(ports: seq<Port>, cloud: map<string, Port>) {
    && (forall i | 0 <= i < |ports| :: ports[i].id in cloud && cloud[ports[i].id] == ports[i])
    && (forall i, j | 0 <= i < j < |ports| :: ports[i].id != ports[j].id)
    && (forall k | k in cloud :: exists i :: 0 <= i < |ports| && ports[i].id == k)
  }

  lemma {:induction false} ListedCount(ports: seq<Port>, cloud: map<string, Port>)
    requires Lists(ports, cloud)
    ensures |ports| == |cloud|
  {
    if ports == [] {
      assert cloud == map[];
    } else {
      var n := |ports| - 1;
      var rest := cloud - {ports[n].id};
      forall k | k in rest
        ensures exists i :: 0 <= i < n && ports[..n][i].id == k
      {
        var i :| 0 <= i < |ports| && ports[i].id == k;
        assert ports[..n][i].id == k;
      }
      ListedCount(ports[..n], rest);
      assert rest.Keys == cloud.Keys - {ports[n].id};
      assert |rest| == |rest.Keys| && |cloud| == |cloud.Keys|;
    }
  }
}
