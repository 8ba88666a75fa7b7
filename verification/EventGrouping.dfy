/** internal/agent/event_sender.go sendBatches: one batch rebuilt as one metric post per entity. */
module EventGrouping {
  import opened EventPipeline

  datatype MetricPost = MetricPost(isAgent: bool, entityId: int, externalKeys: seq<string>, reportingAgentId: int,
                                   events: seq<string>)

  /** newMetricPost: an entity without an id is named by its key. */
  function NewMetricPost(e: Event, agentId: int): MetricPost {
    MetricPost(e.entityKey == e.agentKey, e.entityId, if e.entityId != 0 then [] else [e.entityKey], agentId, [])
  }

  /** The data of the events of one entity, in batch order. */
  function DataOf(b: Batch, key: string): seq<string> {
    if b == [] then []
    else
      var e := b[|b| - 1];
      DataOf(b[..|b| - 1], key) + (if e.entityKey == key then [e.data] else [])
  }

  /** The post an entity starts with: made from its first event. */
  function FirstPost(b: Batch, key: string, agentId: int): MetricPost
    requires DataOf(b, key) != []
  {
    var n := |b| - 1;
    if DataOf(b[..n], key) == [] then NewMetricPost(b[n], agentId) else FirstPost(b[..n], key, agentId)
  }

  function LastAgentKey(b: Batch): string {
    if b == [] then ""
    else
      var e := b[|b| - 1];
      if e.agentKey != "" then e.agentKey else LastAgentKey(b[..|b| - 1])
  }

  /** Exactly the entities of the batch have a post, with all their events in order. */
  ghost predicate Grouped(b: Batch, agentId: int, posts: map<string, MetricPost>) {
    && (forall key :: key in posts <==> DataOf(b, key) != [])
    && (forall key <- posts :: posts[key] == FirstPost(b, key, agentId).(events := DataOf(b, key)))
  }

  method Group(batch: Batch, agentId: int) returns (posts: map<string, MetricPost>, agentKey: string)
    ensures Grouped(batch, agentId, posts) && agentKey == LastAgentKey(batch)
  {
    posts, agentKey := map[], "";
    for i := 0 to |batch|
      invariant Grouped(batch[..i], agentId, posts) && agentKey == LastAgentKey(batch[..i])
    {
      var event := batch[i];
      assert batch[..i + 1][..i] == batch[..i];
      var entityData := if event.entityKey in posts then posts[event.entityKey] else NewMetricPost(event, agentId);
      posts := posts[event.entityKey := entityData.(events := entityData.events + [event.data])];
      if event.agentKey != "" {
        agentKey := event.agentKey;
      }
    }
    assert batch[..|batch|] == batch;
  }

  /** No event is dropped or moved: event `i` stands in the post of its entity, behind the earlier events of that
      entity. */
  lemma {:induction false} EventPosition(b: Batch, i: nat)
    requires i < |b|
    ensures var before, all := DataOf(b[..i], b[i].entityKey), DataOf(b, b[i].entityKey);
            |before| < |all| && all[..|before|] == before && all[|before|] == b[i].data
  {
    var n := |b| - 1;
    if i < n {
      EventPosition(b[..n], i);
      assert b[..n][..i] == b[..i];
    }
  }

  /** The events of a post are exactly those of its entity, each once, in the order of the batch. */
  lemma {:induction false} DataIndices(b: Batch, key: string) returns (js: seq<nat>)
    ensures Ascending(js, |b|) && |js| == |DataOf(b, key)|
    ensures forall j: nat :: j in js <==> j < |b| && b[j].entityKey == key
    ensures forall i :: 0 <= i < |js| ==> DataOf(b, key)[i] == b[js[i]].data
  {
    if b == [] {
      js := [];
    } else {
      var n := |b| - 1;
      js := DataIndices(b[..n], key);
      if b[n].entityKey == key {
        js := js + [n];
      }
    }
  }

  /** What a post says of its entity, from the first event of it: whether it is the agent itself, and its id, or its key
      if it has none. */
  ghost predicate Describes(post: MetricPost, e: Event, agentId: int) {
    && post.isAgent == (e.entityKey == e.agentKey) && post.entityId == e.entityId && post.reportingAgentId == agentId
    && (e.entityId != 0 ==> post.externalKeys == []) && (e.entityId == 0 ==> post.externalKeys == [e.entityKey])
  }

  lemma {:induction false} NoneBefore(b: Batch, key: string)
    ensures DataOf(b, key) == [] <==> forall i :: 0 <= i < |b| ==> b[i].entityKey != key
  {
    if b == [] {
    } else {
      NoneBefore(b[..|b| - 1], key);
    }
  }

  lemma {:induction false} FirstOf(b: Batch, key: string, agentId: int) returns (i: nat)
    requires DataOf(b, key) != []
    ensures i < |b| && b[i].entityKey == key && forall j :: 0 <= j < i ==> b[j].entityKey != key
    ensures Describes(FirstPost(b, key, agentId), b[i], agentId)
  {
    var n := |b| - 1;
    if DataOf(b[..n], key) == [] {
      i := n;
      NoneBefore(b[..n], key);
    } else {
      i := FirstOf(b[..n], key, agentId);
    }
  }

  /** Each post describes its entity by the first event of it in the batch; and there is one for exactly the entities in
      the batch. */
  lemma PostDescribes(b: Batch, agentId: int, posts: map<string, MetricPost>, key: string) returns (i: nat)
    requires Grouped(b, agentId, posts)
    ensures key in posts <==> exists j :: 0 <= j < |b| && b[j].entityKey == key
    ensures key in posts ==>
              && i < |b| && b[i].entityKey == key && (forall j :: 0 <= j < i ==> b[j].entityKey != key)
              && Describes(posts[key], b[i], agentId)
  {
    NoneBefore(b, key);
    i := 0;
    if key in posts {
      i := FirstOf(b, key, agentId);
    }
  }

  /** The key a batch is posted under is the last one that is not empty. */
  lemma {:induction false} LastAgentKeyIs(b: Batch, i: nat)
    requires i < |b| && b[i].agentKey != "" && forall j :: i < j < |b| ==> b[j].agentKey == ""
    ensures LastAgentKey(b) == b[i].agentKey
  {
    var n := |b| - 1;
    if i == n {
    } else {
      LastAgentKeyIs(b[..n], i);
    }
  }

  lemma {:induction false} NoAgentKey(b: Batch)
    requires forall j :: 0 <= j < |b| ==> b[j].agentKey == ""
    ensures LastAgentKey(b) == ""
  {
    if b == [] {
    } else {
      NoAgentKey(b[..|b| - 1]);
    }
  }
}
