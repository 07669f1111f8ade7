/** The cache of storage agents, one for each user and endpoint list, keyed by the joined list. */
module AgentCache {
  import opened Options
  import opened Text

  const ENDPOINTS_SEPARATOR := ", "
  const ADDRESSES_DELIMITER: char := ','

  /** The serial number tells one agent object from another. */
  datatype Agent = Agent(serial: nat, username: string, endpoints: seq<string>, password: string)

  datatype Key = Key(username: string, endpointKey: string)

  datatype Cache = Cache(agents: map<Key, Agent>, created: nat)

  /** The endpoints named by the management address of a secret. */
  function Endpoints(address: string): (endpoints: seq<string>)
    ensures endpoints != [] && NoneContains(endpoints, ADDRESSES_DELIMITER)
  {
    Split(address, ADDRESSES_DELIMITER)
  }

  function KeyOf(username: string, endpoints: seq<string>): Key {
    Key(username, Join(endpoints, ENDPOINTS_SEPARATOR))
  }

  // ---------- the operations ----------

  /** Looking an agent up. A changed password drops the cached agent before a new one is made, and
      making one may fail. */
  function GetSpec(cache: Cache, username: string, endpoints: seq<string>, password: string, creates: bool)
    : (Cache, Option<Agent>)
  {
    var key := KeyOf(username, endpoints);
    if key in cache.agents && cache.agents[key].password == password then
      (cache, Some(cache.agents[key]))
    else if creates then
      var agent := Agent(cache.created, username, endpoints, password);
      (Cache(cache.agents[key := agent], cache.created + 1), Some(agent))
    else
      (Cache(cache.agents - {key}, cache.created), None)
  }

  class AgentStore {
    var arrayAgents: map<Key, Agent>
    var created: nat

    constructor ()
      ensures arrayAgents == map[] && created == 0
    {
      arrayAgents, created := map[], 0;
    }

    method GetAgent(username: string, endpoints: seq<string>, password: string, creates: bool)
      returns (agent: Option<Agent>)
      modifies this
      ensures (Cache(arrayAgents, created), agent)
           == GetSpec(Cache(old(arrayAgents), old(created)), username, endpoints, password, creates)
    {
      var key := Key(username, Join(endpoints, ENDPOINTS_SEPARATOR));
      if key in arrayAgents {
        var found := arrayAgents[key];
        if found.password != password {
          arrayAgents := arrayAgents - {key};
        } else {
          return Some(found);
        }
      }
      if !creates {
        assert key !in old(arrayAgents) ==> arrayAgents - {key} == arrayAgents;
        return None;
      }
      var made := Agent(created, username, endpoints, password);
      created := created + 1;
      arrayAgents := arrayAgents[key := made];
      assert old(arrayAgents)[key := made] == arrayAgents;
      return Some(made);
    }

    method ClearAgents()
      modifies this`arrayAgents
      ensures arrayAgents == map[]
    {
      arrayAgents := map[];
    }
  }

  // ---------- the key ----------

  /** Splitting a joined key at commas gives back the endpoints, all but the first with the blank of
      the separator before them. */
  function Blanked(endpoints: seq<string>): seq<string> {
    if endpoints == [] then [] else [" " + endpoints[0]] + Blanked(endpoints[1..])
  }

  lemma {:induction false} SplitOfKey(endpoints: seq<string>, lead: string)
    requires endpoints != [] && NoneContains(endpoints, ',') && ',' !in lead
    ensures Split(lead + Join(endpoints, ENDPOINTS_SEPARATOR), ',') == [lead + endpoints[0]] + Blanked(endpoints[1..])
  {
    assert endpoints[0] in endpoints;
    var first := lead + endpoints[0];
    if |endpoints| == 1 {
      SplitFree(first, ',');
    } else {
      var rest := " " + Join(endpoints[1..], ENDPOINTS_SEPARATOR);
      SplitOfKey(endpoints[1..], " ");
      SplitPeels(first, rest, ',');
      assert lead + Join(endpoints, ENDPOINTS_SEPARATOR) == first + [','] + rest;
    }
  }

  lemma {:induction false} BlankedIsInjective(a: seq<string>, b: seq<string>)
    requires Blanked(a) == Blanked(b)
    ensures a == b
  {
    if a != [] && b != [] {
      assert Blanked(a)[0] == Blanked(b)[0];
      assert a[0] == (" " + a[0])[1..] && b[0] == (" " + b[0])[1..];
      assert Blanked(a)[1..] == Blanked(a[1..]) && Blanked(b)[1..] == Blanked(b[1..]);
      BlankedIsInjective(a[1..], b[1..]);
      assert a == [a[0]] + a[1..] && b == [b[0]] + b[1..];
    }
  }

  /** Different endpoint lists have different keys, for all lists an address can give. */
  lemma KeyIsInjective(a: seq<string>, b: seq<string>)
    requires a != [] && NoneContains(a, ADDRESSES_DELIMITER)
    requires b != [] && NoneContains(b, ADDRESSES_DELIMITER)
    ensures Join(a, ENDPOINTS_SEPARATOR) == Join(b, ENDPOINTS_SEPARATOR) <==> a == b
  {
    if Join(a, ENDPOINTS_SEPARATOR) == Join(b, ENDPOINTS_SEPARATOR) {
      SplitOfKey(a, "");
      SplitOfKey(b, "");
      assert "" + Join(a, ENDPOINTS_SEPARATOR) == "" + Join(b, ENDPOINTS_SEPARATOR);
      var parts := Split("" + Join(a, ENDPOINTS_SEPARATOR), ',');
      assert parts[1..] == Blanked(a[1..]) && parts[1..] == Blanked(b[1..]);
      BlankedIsInjective(a[1..], b[1..]);
      assert "" + a[0] == a[0] && "" + b[0] == b[0];
      assert a == [a[0]] + a[1..] && b == [b[0]] + b[1..];
    }
  }

  /** Without those two conditions keys do collide. */
  lemma KeysCollideOtherwise()
    ensures Join(["a, b"], ENDPOINTS_SEPARATOR) == Join(["a", "b"], ENDPOINTS_SEPARATOR)
    ensures Join([], ENDPOINTS_SEPARATOR) == Join([""], ENDPOINTS_SEPARATOR)
  {
    assert ["a", "b"][1..] == ["b"];
  }

  // ---------- runs ----------

  datatype Event = Get(username: string, address: string, password: string, creates: bool) | Clear

  function Apply(cache: Cache, event: Event): (Cache, Option<Agent>) {
    match event
    case Get(username, address, password, creates) =>
      GetSpec(cache, username, Endpoints(address), password, creates)
    case Clear => (Cache(map[], cache.created), None)
  }

  function Run(cache: Cache, events: seq<Event>): Cache
    decreases |events|
  {
    if events == [] then cache else Run(Apply(cache, events[0]).0, events[1..])
  }

  /** Every agent sits under its own key, was made from an address, and is the only one there is
      with its serial number. */
  ghost predicate Consistent(cache: Cache) {
    && (forall key | key in cache.agents ::
          var agent := cache.agents[key];
          && key == KeyOf(agent.username, agent.endpoints) && agent.serial < cache.created
          && agent.endpoints != [] && NoneContains(agent.endpoints, ADDRESSES_DELIMITER))
    && (forall j, k | j in cache.agents && k in cache.agents
                      && cache.agents[j].serial == cache.agents[k].serial :: j == k)
  }

  lemma StepKeepsConsistent(cache: Cache, event: Event)
    requires Consistent(cache)
    ensures Consistent(Apply(cache, event).0)
  {
  }

  lemma {:induction false} RunKeepsConsistent(cache: Cache, events: seq<Event>)
    requires Consistent(cache)
    ensures Consistent(Run(cache, events))
    decreases |events|
  {
    if events != [] {
      StepKeepsConsistent(cache, events[0]);
      RunKeepsConsistent(Apply(cache, events[0]).0, events[1..]);
    }
  }

  /** After any run from the empty cache, a lookup that answers gives an agent of exactly the user,
      endpoints and password asked for; it is then cached, and no other agent serves that user and
      those endpoints. A lookup fails only if an agent had to be made and could not be. */
  lemma LookupAgreesWithRequest(events: seq<Event>, get: Event)
    requires get.Get?
    ensures var (cache, agent) := Apply(Run(Cache(map[], 0), events), get);
            && (agent.Some? ==>
                  && agent.value.username == get.username && agent.value.password == get.password
                  && agent.value.endpoints == Endpoints(get.address)
                  && (forall key | key in cache.agents ::
                        cache.agents[key] == agent.value <==>
                        && cache.agents[key].username == get.username
                        && cache.agents[key].endpoints == Endpoints(get.address))
                  && KeyOf(get.username, Endpoints(get.address)) in cache.agents)
            && (agent.None? ==> !get.creates && KeyOf(get.username, Endpoints(get.address)) !in cache.agents)
  {
    var before := Run(Cache(map[], 0), events);
    RunKeepsConsistent(Cache(map[], 0), events);
    var key, endpoints := KeyOf(get.username, Endpoints(get.address)), Endpoints(get.address);
    if key in before.agents {
      KeyIsInjective(before.agents[key].endpoints, endpoints);
    }
    StepKeepsConsistent(before, get);
  }

  /** The same agent is handed out again until the cache is cleared or someone asks for it with
      another password. */
  lemma {:induction false} AgentIsReused(cache: Cache, events: seq<Event>, get: Event, agent: Agent)
    requires get.Get? && Apply(cache, get) == (cache, Some(agent))
    requires Clear !in events
    requires forall e | e in events && e.Get? && e.username == get.username && e.address == get.address ::
               e.password == get.password
    ensures Apply(Run(cache, events), get).1 == Some(agent)
    decreases |events|
  {
    if events != [] {
      var key := KeyOf(get.username, Endpoints(get.address));
      assert key in cache.agents && cache.agents[key] == agent && agent.password == get.password;
      var e := events[0];
      assert e in events;
      if e.username == get.username {
        KeyIsInjective(Endpoints(e.address), Endpoints(get.address));
        JoinOfSplit(e.address, ADDRESSES_DELIMITER);
        JoinOfSplit(get.address, ADDRESSES_DELIMITER);
      }
      AgentIsReused(Apply(cache, e).0, events[1..], get, agent);
    }
  }

  /** From a lookup that has answered on, the same agent is handed out, with nothing made anew, until
      the cache is cleared or someone asks for it with another password. */
  lemma AgentIsKept(cache: Cache, get: Event, events: seq<Event>, again: Event)
    requires get.Get? && Apply(cache, get).1.Some? && Clear !in events
    requires forall e | e in events && e.Get? && e.username == get.username && e.address == get.address ::
               e.password == get.password
    requires again.Get? && again == get.(creates := again.creates)
    ensures
      var (after, agent) := Apply(cache, get);
      Apply(Run(after, events), again) == (Run(after, events), agent)
  {
    var (after, agent) := Apply(cache, get);
    var cached := get.(creates := false);
    assert Apply(after, cached) == (after, agent);
    AgentIsReused(after, events, cached, agent.value);
  }
}
