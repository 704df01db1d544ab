/**
 * The five handlers of the `/api/ideas` router over an in-memory store of
 * ideas. Each handler returns the status code and the JSON body the router
 * would send; the document store is a map from id to record, and the id
 * format test is a predicate the store is created with.
 */
module IdeaRoutes {
  import opened Wrappers
  import opened Text
  import opened Tags
  import opened Validation

  /** A stored idea. `createdAt` is the store's creation counter at the time of the create. */
  datatype Idea = Idea(
    id: string,
    title: string,
    summary: string,
    description: string,
    tags: seq<string>,
    createdAt: nat)

  /** The fields of a POST or PUT body. */
  datatype RequestBody = RequestBody(title: Field, summary: Field, description: Field, tags: TagsField)

  /** What a handler sends, or the error it hands to the error middleware. */
  datatype Body =
    | One(idea: Idea)           // res.json(idea)
    | Many(ideas: seq<Idea>)    // res.json(ideas)
    | Message(message: string)  // res.json({ message })
    | Failure(message: string)  // throw new Error(message) after res.status(...)
    | Uncaught(error: string)   // a TypeError thrown before any res.status(...)

  datatype Response = Response(status: nat, body: Body)

  const NotFoundMessage := "Idea Not Found"
  /** The update handler spells its second not-found message in lower case (line 149). */
  const UpdateNotFoundMessage := "Idea not found"
  const RequiredMessage := "Title, summary and description are required"
  const DeletedMessage := "Idea deleted successfully"
  const TypeErrorName := "TypeError"
  /** Express's status code of a response on which `res.status` was never called. */
  const DefaultStatus := 200

  function NotFound(): Response {
    Response(404, Failure(NotFoundMessage))
  }

  function BadRequest(): Response {
    Response(400, Failure(RequiredMessage))
  }

  function Crash(): Response {
    Response(DefaultStatus, Uncaught(TypeErrorName))
  }

  /** Newest first: strictly decreasing creation counters. */
  predicate NewestFirstOrder(xs: seq<Idea>) {
    forall i, j :: 0 <= i < j < |xs| ==> xs[i].createdAt > xs[j].createdAt
  }

  /** A stored record never has an empty or white-space-only required field. */
  predicate HasRequiredFields(idea: Idea) {
    HasText(idea.title) && HasText(idea.summary) && HasText(idea.description)
  }

  /**
   * `query.limit(n)`: the first `n` of the records, or all of them when there
   * are fewer; MongoDB reads a limit of 0 as no limit.
   */
  function ApplyLimit(xs: seq<Idea>, n: nat): (r: seq<Idea>)
    ensures |r| <= |xs| && r == xs[..|r|]
    ensures n == 0 ==> r == xs
    ensures n > 0 ==> |r| == if n < |xs| then n else |xs|
  {
    if n == 0 || n >= |xs| then xs else xs[..n]
  }

  class IdeaStore {
    /** `mongoose.Types.ObjectId.isValid`, left uninterpreted. */
    const isValid: string -> bool
    /** The id the store gives to the n-th created record. */
    const idOf: nat -> string
    /** The collection: id to record. */
    var ideas: map<string, Idea>
    /** Records created so far; the next record's `createdAt`. */
    var clock: nat

    /** The id generator never repeats itself and only produces well-formed ids. */
    ghost predicate IdsWellFormed() {
      && (forall m: nat, n: nat :: idOf(m) == idOf(n) ==> m == n)
      && (forall n: nat :: isValid(idOf(n)))
    }

    /**
     * Every record is filed under its own id, was created before `clock`
     * under the id generated for it, and has its three required fields.
     */
    ghost predicate Invariant(ideas: map<string, Idea>, clock: nat) {
      forall id :: id in ideas ==>
        && ideas[id].id == id
        && ideas[id].createdAt < clock
        && idOf(ideas[id].createdAt) == id
        && HasRequiredFields(ideas[id])
    }

    ghost predicate Valid()
      reads this
    {
      IdsWellFormed() && Invariant(ideas, clock)
    }

    /** The id generated for the next create is not in use. */
    lemma FreshId(ideas: map<string, Idea>, clock: nat)
      requires IdsWellFormed() && Invariant(ideas, clock)
      ensures idOf(clock) !in ideas
    {
    }

    /** Storing a new, complete record under the next id keeps the invariant. */
    lemma InsertKeepsInvariant(ideas: map<string, Idea>, clock: nat, idea: Idea)
      requires IdsWellFormed() && Invariant(ideas, clock)
      requires idea.id == idOf(clock) && idea.createdAt == clock && HasRequiredFields(idea)
      ensures Invariant(ideas[idea.id := idea], clock + 1)
    {
    }

    /** Replacing the editable fields of a record keeps the invariant. */
    lemma ReplaceKeepsInvariant(ideas: map<string, Idea>, clock: nat, idea: Idea)
      requires Invariant(ideas, clock)
      requires idea.id in ideas && idea.createdAt == ideas[idea.id].createdAt && HasRequiredFields(idea)
      ensures Invariant(ideas[idea.id := idea], clock)
    {
    }

    /** Removing a record keeps the invariant. */
    lemma RemoveKeepsInvariant(ideas: map<string, Idea>, clock: nat, id: string)
      requires Invariant(ideas, clock)
      ensures Invariant(ideas - {id}, clock)
    {
    }

    constructor (isValid: string -> bool, idOf: nat -> string)
      requires forall m: nat, n: nat :: idOf(m) == idOf(n) ==> m == n
      requires forall n: nat :: isValid(idOf(n))
      ensures Valid()
      ensures this.isValid == isValid && this.idOf == idOf
      ensures ideas == map[] && clock == 0
    {
      this.isValid := isValid;
      this.idOf := idOf;
      ideas := map[];
      clock := 0;
    }

    /** Ids of the records created before the k-th create. */
    ghost function CreatedBefore(k: nat): set<string>
      reads this
    {
      set id | id in ideas && ideas[id].createdAt < k
    }

    /**
     * `Idea.find().sort({createdAt: -1})` restricted to the records created
     * before the k-th create: each of them exactly once, newest first.
     */
    function NewestFirst(k: nat): (r: seq<Idea>)
      reads this
      requires Valid()
      ensures NewestFirstOrder(r)
      ensures forall i :: 0 <= i < |r| ==> r[i].createdAt < k && r[i].id in ideas && ideas[r[i].id] == r[i]
    {
      if k == 0 then []
      else
        var rest := NewestFirst(k - 1);
        var id := idOf(k - 1);
        if id in ideas then
          assert ideas[id].createdAt == k - 1 by {
            assert idOf(ideas[id].createdAt) == id;
          }
          var r := [ideas[id]] + rest;
          assert forall i :: 1 <= i < |r| ==> r[i] == rest[i - 1];
          assert NewestFirstOrder(r) by {
            forall i, j | 0 <= i < j < |r| ensures r[i].createdAt > r[j].createdAt {
              assert r[j] == rest[j - 1];
              if i > 0 { assert r[i] == rest[i - 1]; }
            }
          }
          r
        else
          rest
    }

    /** The ordering holds as many records as were created before the k-th create. */
    lemma {:induction false} NewestFirstLength(k: nat)
      requires Valid()
      ensures |NewestFirst(k)| == |CreatedBefore(k)|
    {
      if k == 0 {
        assert CreatedBefore(0) == {};
      } else {
        CreatedBeforeStep(k);
        NewestFirstLength(k - 1);
      }
    }

    /** Every record created before the k-th create appears in the ordering. */
    lemma {:induction false} NewestFirstComplete(k: nat, id: string)
      requires Valid()
      requires id in ideas && ideas[id].createdAt < k
      ensures ideas[id] in NewestFirst(k)
    {
      CreatedBeforeStep(k);
      if idOf(k - 1) != id {
        assert ideas[id].createdAt != k - 1;
        NewestFirstComplete(k - 1, id);
      }
    }

    /** One more create step adds at most the record with the (k-1)-th id. */
    lemma CreatedBeforeStep(k: nat)
      requires Valid() && k > 0
      ensures idOf(k - 1) in ideas ==>
        && ideas[idOf(k - 1)].createdAt == k - 1
        && idOf(k - 1) !in CreatedBefore(k - 1)
        && CreatedBefore(k) == CreatedBefore(k - 1) + {idOf(k - 1)}
      ensures idOf(k - 1) !in ideas ==> CreatedBefore(k) == CreatedBefore(k - 1)
    {
      var id := idOf(k - 1);
      if id in ideas {
        assert idOf(ideas[id].createdAt) == id;
      }
    }

    /** Every record of the store is created before the current counter. */
    lemma AllCreatedBefore()
      requires Valid()
      ensures CreatedBefore(clock) == ideas.Keys
    {
    }

    /** GET /: all records newest first, cut to the parsed `_limit` when there is one. */
    method List(limit: Option<nat>) returns (resp: Response)
      requires Valid()
      ensures resp.status == 200 && resp.body.Many?
      ensures NewestFirstOrder(resp.body.ideas)
      ensures |resp.body.ideas| <= |NewestFirst(clock)| == |ideas|
      ensures resp.body.ideas == NewestFirst(clock)[..|resp.body.ideas|]
      ensures limit.None? || limit.value == 0 ==> resp.body.ideas == NewestFirst(clock)
      ensures limit.None? || limit.value == 0 ==> forall id :: id in ideas ==> ideas[id] in resp.body.ideas
      ensures limit.Some? && limit.value > 0 ==>
        |resp.body.ideas| == if limit.value < |ideas| then limit.value else |ideas|
    {
      var query := NewestFirst(clock);
      AllCreatedBefore();
      NewestFirstLength(clock);
      forall id | id in ideas ensures ideas[id] in query {
        NewestFirstComplete(clock, id);
      }
      if limit.Some? {
        query := ApplyLimit(query, limit.value);
      }
      resp := Response(200, Many(query));
    }

    /** GET /:id. */
    method Get(id: string) returns (resp: Response)
      requires Valid()
      ensures !isValid(id) ==> resp == NotFound()
      ensures isValid(id) && id !in ideas ==> resp == NotFound()
      ensures isValid(id) && id in ideas ==> resp == Response(200, One(ideas[id]))
    {
      if !isValid(id) {
        return NotFound();
      }
      if id !in ideas {
        return NotFound();
      }
      resp := Response(200, One(ideas[id]));
    }

    /** POST /: validate, normalise the tags, store a new record. */
    method Create(body: RequestBody) returns (resp: Response)
      requires Valid()
      modifies this
      ensures Valid()
      ensures CheckRequired(body.title, body.summary, body.description) == Rejected ==>
        resp == BadRequest() && ideas == old(ideas) && clock == old(clock)
      ensures CheckRequired(body.title, body.summary, body.description) == Throws ==>
        resp == Crash() && ideas == old(ideas) && clock == old(clock)
      ensures CheckRequired(body.title, body.summary, body.description) == Accepted ==>
        var idea := Idea(idOf(old(clock)), body.title.text, body.summary.text, body.description.text,
                         CreateTags(body.tags), old(clock));
        && idea.id !in old(ideas)
        && ideas == old(ideas)[idea.id := idea]
        && clock == old(clock) + 1
        && resp == Response(201, One(idea))
    {
      var verdict := CheckRequired(body.title, body.summary, body.description);
      if verdict == Rejected {
        return BadRequest();
      }
      if verdict == Throws {
        return Crash();
      }
      var id := idOf(clock);
      FreshId(ideas, clock);
      var idea := Idea(id, body.title.text, body.summary.text, body.description.text,
                       CreateTags(body.tags), clock);
      InsertKeepsInvariant(ideas, clock, idea);
      ideas := ideas[id := idea];
      clock := clock + 1;
      resp := Response(201, One(idea));
    }

    /** DELETE /:id. */
    method Delete(id: string) returns (resp: Response)
      requires Valid()
      modifies this
      ensures Valid()
      ensures clock == old(clock)
      ensures !isValid(id) || id !in old(ideas) ==> resp == NotFound() && ideas == old(ideas)
      ensures isValid(id) && id in old(ideas) ==>
        resp == Response(200, Message(DeletedMessage)) && ideas == old(ideas) - {id}
    {
      if !isValid(id) {
        return NotFound();
      }
      if id !in ideas {
        return NotFound();
      }
      RemoveKeepsInvariant(ideas, clock, id);
      ideas := ideas - {id};
      resp := Response(200, Message(DeletedMessage));
    }

    /** PUT /:id: id format, then the body, then the tags, then the lookup. */
    method Update(id: string, body: RequestBody) returns (resp: Response)
      requires Valid()
      modifies this
      ensures Valid()
      ensures clock == old(clock)
      ensures !isValid(id) ==> resp == NotFound() && ideas == old(ideas)
      ensures isValid(id) && CheckRequired(body.title, body.summary, body.description) == Rejected ==>
        resp == BadRequest() && ideas == old(ideas)
      ensures isValid(id) && CheckRequired(body.title, body.summary, body.description) == Throws ==>
        resp == Crash() && ideas == old(ideas)
      ensures isValid(id) && CheckRequired(body.title, body.summary, body.description) == Accepted &&
              UpdateTags(body.tags).None? ==>
        resp == Crash() && ideas == old(ideas)
      ensures isValid(id) && CheckRequired(body.title, body.summary, body.description) == Accepted &&
              UpdateTags(body.tags).Some? && id !in old(ideas) ==>
        resp == Response(404, Failure(UpdateNotFoundMessage)) && ideas == old(ideas)
      ensures isValid(id) && CheckRequired(body.title, body.summary, body.description) == Accepted &&
              UpdateTags(body.tags).Some? && id in old(ideas) ==>
        && ideas == old(ideas)[id := Edited(old(ideas)[id], body, UpdateTags(body.tags).value)]
        && resp == Response(200, One(Edited(old(ideas)[id], body, UpdateTags(body.tags).value)))
    {
      if !isValid(id) {
        return NotFound();
      }
      var verdict := CheckRequired(body.title, body.summary, body.description);
      if verdict == Rejected {
        return BadRequest();
      }
      if verdict == Throws {
        return Crash();
      }
      var tags := UpdateTags(body.tags);
      if tags.None? {
        return Crash();
      }
      if id !in ideas {
        return Response(404, Failure(UpdateNotFoundMessage));
      }
      var idea := Edited(ideas[id], body, tags.value);
      ReplaceKeepsInvariant(ideas, clock, idea);
      ideas := ideas[id := idea];
      resp := Response(200, One(idea));
    }
  }

  /**
   * The record after `findByIdAndUpdate`: title, summary, description and
   * tags replaced; id and creation time kept.
   */
  function Edited(idea: Idea, body: RequestBody, tags: seq<string>): (r: Idea)
    requires body.title.Str? && body.summary.Str? && body.description.Str?
    ensures r.id == idea.id && r.createdAt == idea.createdAt
    ensures r.title == body.title.text && r.summary == body.summary.text
    ensures r.description == body.description.text && r.tags == tags
  {
    idea.(title := body.title.text, summary := body.summary.text,
          description := body.description.text, tags := tags)
  }

  /** A get after a delete of the same id always answers 404. */
  method DeleteThenGet(store: IdeaStore, id: string) returns (deleted: Response, fetched: Response)
    requires store.Valid()
    modifies store
    ensures deleted.status == 200 <==> store.isValid(id) && id in old(store.ideas)
    ensures fetched == NotFound()
  {
    deleted := store.Delete(id);
    fetched := store.Get(id);
  }

  /** A record created by POST is what a GET of its id returns. */
  method CreateThenGet(store: IdeaStore, body: RequestBody) returns (created: Response, fetched: Response)
    requires store.Valid()
    modifies store
    ensures created.status == 201 <==> CheckRequired(body.title, body.summary, body.description) == Accepted
    ensures created.status == 201 ==> fetched == Response(200, created.body)
  {
    var id := store.idOf(store.clock);
    created := store.Create(body);
    fetched := store.Get(id);
  }

  /** On PUT the id format is checked first: a malformed id with an empty body is 404, not 400. */
  method MalformedIdBeforeBody(store: IdeaStore, id: string) returns (resp: Response)
    requires store.Valid() && !store.isValid(id)
    modifies store
    ensures resp == NotFound() && store.ideas == old(store.ideas)
  {
    resp := store.Update(id, RequestBody(Absent, Absent, Absent, OtherTags));
  }
}
