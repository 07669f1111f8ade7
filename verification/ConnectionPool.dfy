/** The connection pool as one thread uses it: get, put, the pre-population in the constructor and
    the draining in the destructor. */
module ConnectionPool {
  import opened Faults

  type Connection = nat

  /** What get answers: an item, the exception of a failed create, or (with the pool full and the
      queue empty) nothing until another thread puts an item back. */
  datatype Got = Item(item: Connection) | CreateFailed | NoneFree

  /** The number of leading items of the queue that are not active. */
  function DeadPrefix(channel: seq<Connection>, alive: set<Connection>): (k: nat)
    ensures k <= |channel|
    ensures forall i :: 0 <= i < k ==> channel[i] !in alive
    ensures k < |channel| ==> channel[k] in alive
  {
    if channel == [] || channel[0] in alive then 0 else 1 + DeadPrefix(channel[1..], alive)
  }

  /** Moving the first k + 1 elements of one sequence to the end of another. */
  lemma MoveFirst(closed: seq<Connection>, s: seq<Connection>, k: nat)
    requires k < |s|
    ensures closed + s[..k] + [s[k]] + s[k + 1..] == closed + s
    ensures s[k + 1..] == [] ==> closed + s[..k] + [s[k]] == closed + s
    ensures s[k + 1..] != [] ==> s[k + 1..][|s| - k - 2] == s[|s| - 1]
  {
    assert s == s[..k] + [s[k]] + s[k + 1..];
  }

  class ConnectionPool {
    const maxSize: nat
    var currentSize: int
    var channel: seq<Connection>
    /** The number of connections created so far; connections are numbered in that order. */
    var created: nat
    /** Every connection that was disconnected, in order. */
    var closed: seq<Connection>

    /** Whether a failed create raised out of the constructor, so that nobody gets to see the pool. */
    var raised: bool

    /** Pre-population: minSize times put(get()), the activity of a queued connection being asked
        anew each time, and each create free to fail. */
    constructor (minSize: nat, maxSize: nat, mayFail: bool)
      requires maxSize > 0
      ensures this.maxSize == maxSize
      ensures raised ==> mayFail && minSize > 0
      ensures |channel| == currentSize == (if minSize == 0 || raised then 0 else 1)
      ensures created == |closed| + |channel|
    {
      this.maxSize := maxSize;
      currentSize, channel, created, closed, raised := 0, [], 0, [], false;
      new;
      for i := 0 to minSize
        invariant !raised && |channel| == currentSize == (if i == 0 then 0 else 1)
        invariant created == |closed| + |channel|
      {
        var alive: set<Connection> := *;
        var fault := Fault(mayFail);
        var got := Get(alive, !fault);
        if got.CreateFailed? {
          raised := true;
          return;
        }
        Put(got.item);
      }
    }

    method Get(alive: set<Connection>, createWorks: bool) returns (got: Got)
      modifies this`currentSize, this`channel, this`created, this`closed
      ensures
        var k := DeadPrefix(old(channel), alive);
        if k < |old(channel)| then
          && got == Item(old(channel)[k]) && channel == old(channel)[k + 1..]
          && currentSize == old(currentSize) - k && created == old(created)
          && closed == old(closed) + old(channel)[..k]
        else
          && channel == [] && closed == old(closed) + old(channel)
          && (if old(currentSize) - k >= maxSize then
                got == NoneFree && currentSize == old(currentSize) - k && created == old(created)
              else if createWorks then
                got == Item(old(created)) && currentSize == old(currentSize) - k + 1 && created == old(created) + 1
              else
                got == CreateFailed && currentSize == old(currentSize) - k && created == old(created))
    {
      ghost var n := 0;
      while channel != []
        invariant n <= |old(channel)| && channel == old(channel)[n..]
        invariant DeadPrefix(old(channel), alive) == n + DeadPrefix(channel, alive)
        invariant currentSize == old(currentSize) - n && created == old(created)
        invariant closed == old(closed) + old(channel)[..n]
        decreases |channel|
      {
        var item := channel[0];
        channel := channel[1..];
        if item in alive {
          return Item(item);
        }
        currentSize := currentSize - 1;
        closed := closed + [item];
        n := n + 1;
      }
      assert old(channel)[..n] == old(channel);
      var isFull := currentSize >= maxSize;
      if isFull {
        return NoneFree;
      }
      currentSize := currentSize + 1;
      if !createWorks {
        currentSize := currentSize - 1;
        return CreateFailed;
      }
      got := Item(created);
      created := created + 1;
    }

    /** Queues the item, or disconnects it when the counter is over the limit or the queue is
        full; only the first of these counts it off. */
    method Put(item: Connection)
      modifies this`currentSize, this`channel, this`created, this`closed
      ensures created == old(created)
      ensures
        if old(currentSize) > maxSize then
          currentSize == old(currentSize) - 1 && channel == old(channel) && closed == old(closed) + [item]
        else if maxSize > 0 && |old(channel)| >= maxSize then
          currentSize == old(currentSize) && channel == old(channel) && closed == old(closed) + [item]
        else
          currentSize == old(currentSize) && channel == old(channel) + [item] && closed == old(closed)
    {
      var discard := currentSize > maxSize;
      if discard {
        currentSize := currentSize - 1;
      }
      if !discard {
        if maxSize == 0 || |channel| < maxSize {
          channel := channel + [item];
          return;
        }
      }
      closed := closed + [item];
    }

    /** The destructor, with nothing checked out: it ends, with the counter at zero and the queue
        empty, and has disconnected each queued connection once, in order, and then the one extra
        connection it creates itself exactly when the last queued one was dead. A failing create
        raises out of the loop after everything was disconnected. */
    method Drain(alive: set<Connection>, createWorks: bool)
      requires currentSize == |channel| <= maxSize
      modifies this`currentSize, this`channel, this`created, this`closed
      ensures currentSize == 0 && channel == []
      ensures
        var extra := old(channel) != [] && old(channel)[|old(channel)| - 1] !in alive && createWorks;
        && closed == old(closed) + old(channel) + (if extra then [old(created)] else [])
        && created == old(created) + (if extra then 1 else 0)
    {
      ghost var extra := channel != [] && channel[|channel| - 1] !in alive && createWorks;
      while currentSize != 0
        invariant currentSize == |channel| <= maxSize
        invariant
          if channel == [] then
            && closed == old(closed) + old(channel) + (if extra then [old(created)] else [])
            && created == old(created) + (if extra then 1 else 0)
          else
            && old(channel) != [] && channel[|channel| - 1] == old(channel)[|old(channel)| - 1]
            && closed + channel == old(closed) + old(channel) && created == old(created)
        decreases currentSize
      {
        ghost var was, before, k := closed, channel, DeadPrefix(channel, alive);
        var got := Get(alive, createWorks);
        if got.CreateFailed? {
          return;
        }
        if k < |before| {
          MoveFirst(was, before, k);
        }
        closed := closed + [got.item];
        currentSize := currentSize - 1;
      }
    }
  }

  /** Pre-population that does not raise gives the pool minSize connections only for sizes 0 and 1:
      from the second round on, put(get()) takes the connection just queued and puts it back. */
  method PrePopulate(minSize: nat, maxSize: nat, mayFail: bool) returns (built: bool, queued: nat)
    requires maxSize > 0
    ensures !built ==> mayFail && minSize > 0 && queued == 0
    ensures built ==> (queued == minSize <==> minSize <= 1)
  {
    var pool := new ConnectionPool(minSize, maxSize, mayFail);
    built, queued := !pool.raised, |pool.channel|;
  }
}
