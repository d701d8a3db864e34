/**
 * The REST server's in-memory astronaut store: an ordered list of records
 * and the next id to hand out, with the handlers of
 *   GET    /astronauts/:page?     (paginated listing)
 *   POST   /astronauts            (create)
 *   POST   /astronauts/example    (bulk append of example records)
 *   PUT    /astronauts/:id        (update)
 *   DELETE /astronauts/:id        (delete)
 * Each handler returns the status code and the payload it sends.
 */
module Server {
  import opened Json
  import opened RecordList

  /** Records per page of the listing. */
  const PerPage := 5

  /** The four keys a request body must carry. */
  const RequiredFields: set<string> := {"firstName", "lastName", "birthdate", "superpower"}

  /** The `message` texts the handlers send. */
  datatype Message =
    | PageDoesNotExist    // "This Page Does Not Exist"
    | FieldsIncorrect     // "Some Fields Are Incorrect"
    | AstronautCreated    // "Astronaut Created"
    | ExamplesAdded       // "Added 11 Astronauts." (whatever the number added)
    | IdNotInteger        // "ID must be an integer."
    | NotFound(id: int)   // "Astronaut with ID <id> not found."
    | AstronautUpdated    // "Astronaut Updated."
    | AstronautDeleted    // "Astronaut Deleted."

  datatype Payload =
    | Listing(totalPages: int, current: int, data: seq<Record>)
    | Notice(message: Message)
    | NoticeWith(message: Message, record: Record)

  datatype Response = Response(status: int, payload: Payload)

  /** `isValidAstronaut`: the body has each required key; the values are not
      looked at. */
  predicate IsValidAstronaut(body: Record)
    ensures IsValidAstronaut(body) <==> RequiredFields <= body.Keys
  {
    "firstName" in body && "lastName" in body && "birthdate" in body && "superpower" in body
  }

  /** Validation depends on the set of keys only: the values are never
      inspected. */
  lemma ValidationIsKeyPresence(body: Record, other: Record)
    ensures body.Keys == other.Keys ==> IsValidAstronaut(body) == IsValidAstronaut(other)
  {
  }

  function Min(a: int, b: int): int { if a <= b then a else b }

  /** `Math.ceil(n / PerPage)` */
  function TotalPages(n: nat): (t: nat)
    ensures n > 0 ==> (t - 1) * PerPage < n <= t * PerPage
    ensures n == 0 ==> t == 0
  {
    (n + PerPage - 1) / PerPage
  }

  /** Array.prototype.slice's treatment of one bound: a negative bound counts
      from the end, and the result is clamped to [0, len]. */
  function ClampIndex(rel: int, len: nat): (k: nat)
    ensures k <= len
    ensures 0 <= rel ==> k == Min(rel, len)
    ensures rel < 0 ==> k == if len + rel < 0 then 0 else len + rel
  {
    if rel < 0 then (if len + rel < 0 then 0 else len + rel)
    else if rel < len then rel else len
  }

  /** `s.slice(start, end)` */
  function JsSlice(s: seq<Record>, start: int, end: int): (r: seq<Record>)
    ensures 0 <= start <= end ==> r == s[Min(start, |s|)..Min(end, |s|)]
    ensures |r| <= |s|
    ensures start <= end ==> |r| <= end - start
    // bounds on the same side of 0 in the wrong order select nothing
    ensures (start < 0 <==> end < 0) && end <= start ==> r == []
  {
    var k := ClampIndex(start, |s|);
    var f := ClampIndex(end, |s|);
    if k < f then s[k..f] else []
  }

  /** The records the listing sends for page `p` of store `s`:
      `s.slice((p - 1) * PerPage, (p - 1) * PerPage + PerPage)`. */
  function PageData(s: seq<Record>, p: int): (r: seq<Record>)
    ensures |r| <= |s| && |r| <= PerPage
    // a page in range holds its (at most) PerPage records, in store order
    ensures 1 <= p <= TotalPages(|s|) ==>
      r == s[(p - 1) * PerPage..Min(p * PerPage, |s|)] && 1 <= |r|
    // page 0 is empty, and page -k skips the last k blocks of PerPage
    // records and holds the block before them
    ensures p <= 0 ==>
      var from := |s| + (p - 1) * PerPage;
      var to := |s| + p * PerPage;
      r == (if to <= 0 || p == 0 then [] else s[if from < 0 then 0 else from..to])
  {
    var from := (p - 1) * PerPage;
    var to := from + PerPage;
    assert p <= 0 ==> ClampIndex(from, |s|) == (if |s| + from < 0 then 0 else |s| + from);
    assert p < 0 ==> ClampIndex(to, |s|) == (if |s| + to < 0 then 0 else |s| + to);
    JsSlice(s, from, to)
  }

  /** The GET /astronauts/:page? handler on store `s`; `page` is the parsed
      page parameter, None when it is missing or not a number. */
  function ListPage(s: seq<Record>, page: Option<int>): (r: Response)
    // an empty store: one page, no current page, no data, whatever was asked
    ensures |s| == 0 ==> r == Response(200, Listing(1, -1, []))
    // otherwise a missing page means page 1, a page past the end is refused,
    // and any other page is answered with that page's records
    ensures |s| > 0 ==>
      var p := if page.Some? then page.value else 1;
      && (r.status == 400 <==> p > TotalPages(|s|))
      && (p > TotalPages(|s|) ==> r.payload == Notice(PageDoesNotExist))
      && (p <= TotalPages(|s|) ==>
            r == Response(200, Listing(TotalPages(|s|), p, PageData(s, p))))
    // so a page in range (a missing page being page 1) holds its (at most)
    // PerPage records, in store order
    ensures var p := if page.Some? then page.value else 1;
      1 <= p <= TotalPages(|s|) ==>
      && r.payload.Listing?
      && r.payload.data == s[(p - 1) * PerPage..Min(p * PerPage, |s|)]
      && 1 <= |r.payload.data| <= PerPage
  {
    if |s| == 0 then Response(200, Listing(1, -1, []))
    else
      var total := TotalPages(|s|);
      var p := if page.Some? then page.value else 1;
      if p > total then Response(400, Notice(PageDoesNotExist))
      else Response(200, Listing(total, p, PageData(s, p)))
  }

  /** Pages 1..k of store `s`, concatenated. */
  function PagesUpTo(s: seq<Record>, k: nat): seq<Record>
  {
    if k == 0 then [] else PagesUpTo(s, k - 1) + PageData(s, k)
  }

  /** Pages 1..k are the first k * PerPage records of the store. */
  lemma {:induction false} PagesUpToIsPrefix(s: seq<Record>, k: nat)
    ensures PagesUpTo(s, k) == s[..Min(k * PerPage, |s|)]
  {
    if k > 0 {
      PagesUpToIsPrefix(s, k - 1);
      var lo, hi := Min((k - 1) * PerPage, |s|), Min(k * PerPage, |s|);
      assert PageData(s, k) == s[lo..hi];
      assert s[..lo] + s[lo..hi] == s[..hi];
    }
  }

  /** Reading every page the listing reports, from 1 to its page count,
      gives back the whole store, in order, each record once. */
  lemma PagesReassembleStore(s: seq<Record>)
    ensures ListPage(s, None).payload.Listing?
    ensures var total := ListPage(s, None).payload.totalPages;
            total >= 1 && PagesUpTo(s, total) == s
  {
    var total := if |s| == 0 then 1 else TotalPages(|s|);
    PagesUpToIsPrefix(s, total);
    assert s[..|s|] == s;
  }

  /** The record that create builds from a valid body: the given id and the
      four required fields, and no other key. */
  function NewAstronaut(id: int, body: Record): (r: Record)
    requires IsValidAstronaut(body)
    ensures r.Keys == RequiredFields + {"id"}
    ensures HasId(r, id)
    ensures forall k :: k in RequiredFields ==> r[k] == body[k]
  {
    map["id" := Int(id), "firstName" := body["firstName"], "lastName" := body["lastName"],
        "birthdate" := body["birthdate"], "superpower" := body["superpower"]]
  }

  /** `{...ast, id: first + i}` for each example `ast` at position i. */
  function Stamped(examples: seq<Record>, first: int): (r: seq<Record>)
    ensures |r| == |examples|
    ensures forall i :: 0 <= i < |r| ==>
      HasId(r[i], first + i) && r[i].Keys == examples[i].Keys + {"id"}
      && forall k :: k in examples[i] && k != "id" ==> r[i][k] == examples[i][k]
  {
    seq(|examples|, i requires 0 <= i < |examples| => examples[i]["id" := Int(first + i)])
  }

  /** Every record carries an integer id below `next`, and no two records
      share an id: the ids handed out by the counter are unique. */
  predicate Numbered(s: seq<Record>, next: int)
  {
    && (forall i :: 0 <= i < |s| ==> IdOf(s[i]).Some? && IdOf(s[i]).value < next)
    && (forall i, j :: 0 <= i < j < |s| ==> IdOf(s[i]) != IdOf(s[j]))
  }

  /** Appending a record that carries the counter's value, and advancing the
      counter, keeps the ids unique. */
  lemma NumberedAppend(s: seq<Record>, next: int, r: Record)
    requires Numbered(s, next) && HasId(r, next)
    ensures Numbered(s + [r], next + 1)
  {
  }

  /** A numbered list stays numbered without its first record. */
  lemma NumberedTail(s: seq<Record>, next: int)
    requires Numbered(s, next) && s != []
    ensures Numbered(s[1..], next)
  {
    var tail := s[1..];
    forall i, j | 0 <= i < j < |tail| ensures IdOf(tail[i]) != IdOf(tail[j]) {
      assert tail[i] == s[i + 1] && tail[j] == s[j + 1];
    }
  }

  /** A record with a fresh id below the counter can go in front. */
  lemma NumberedCons(x: Record, rest: seq<Record>, next: int)
    requires Numbered(rest, next) && IdOf(x).Some? && IdOf(x).value < next
    requires forall y :: y in rest ==> IdOf(y) != IdOf(x)
    ensures Numbered([x] + rest, next)
  {
    var t := [x] + rest;
    forall i, j | 0 <= i < j < |t| ensures IdOf(t[i]) != IdOf(t[j]) {
      assert t[j] == rest[j - 1];
      if i > 0 {
        assert t[i] == rest[i - 1];
      }
    }
  }

  /** Filtering records out keeps the ids unique. */
  lemma {:induction false} NumberedWithout(s: seq<Record>, next: int, id: int)
    requires Numbered(s, next)
    ensures Numbered(Without(s, id), next)
  {
    if s != [] {
      var tail := s[1..];
      NumberedTail(s, next);
      NumberedWithout(tail, next, id);
      var rest := Without(tail, id);
      if !HasId(s[0], id) {
        forall x | x in rest ensures IdOf(x) != IdOf(s[0]) {
          var k :| 0 <= k < |tail| && tail[k] == x;
          assert s[k + 1] == x;
        }
        NumberedCons(s[0], rest, next);
        assert Without(s, id) == [s[0]] + rest;
      }
    }
  }

  class Store {
    /** The records, in insertion order. */
    var astronauts: seq<Record>
    /** The id the next created record receives. */
    var lastId: int

    constructor ()
      ensures astronauts == [] && lastId == 1
      ensures Numbered(astronauts, lastId)
    {
      astronauts := [];
      lastId := 1;
    }

    /** GET /astronauts/:page? */
    method List(page: Option<int>) returns (res: Response)
      ensures res == ListPage(astronauts, page)
    {
      res := ListPage(astronauts, page);
    }

    /** POST /astronauts */
    method Create(body: Record) returns (res: Response)
      modifies this
      ensures !IsValidAstronaut(body) ==>
        && res == Response(400, Notice(FieldsIncorrect))
        && astronauts == old(astronauts) && lastId == old(lastId)
      ensures IsValidAstronaut(body) ==>
        && astronauts == old(astronauts) + [NewAstronaut(old(lastId), body)]
        && lastId == old(lastId) + 1
        && res == Response(200, NoticeWith(AstronautCreated, NewAstronaut(old(lastId), body)))
      ensures old(Numbered(astronauts, lastId)) ==> Numbered(astronauts, lastId)
    {
      if !IsValidAstronaut(body) {
        return Response(400, Notice(FieldsIncorrect));
      }
      var created := NewAstronaut(lastId, body);
      if Numbered(astronauts, lastId) {
        NumberedAppend(astronauts, lastId, created);
      }
      astronauts := astronauts + [created];
      lastId := lastId + 1;
      res := Response(200, NoticeWith(AstronautCreated, created));
    }

    /** POST /astronauts/example: appends each example with the next id. */
    method AddExamples(examples: seq<Record>) returns (res: Response)
      modifies this
      ensures astronauts == old(astronauts) + Stamped(examples, old(lastId))
      ensures lastId == old(lastId) + |examples|
      ensures res == Response(200, Notice(ExamplesAdded))
      ensures old(Numbered(astronauts, lastId)) ==> Numbered(astronauts, lastId)
    {
      ghost var wasNumbered := Numbered(astronauts, lastId);
      for i := 0 to |examples|
        invariant astronauts == old(astronauts) + Stamped(examples[..i], old(lastId))
        invariant lastId == old(lastId) + i
        invariant wasNumbered ==> Numbered(astronauts, lastId)
      {
        var stamped := examples[i]["id" := Int(lastId)];
        if wasNumbered {
          NumberedAppend(astronauts, lastId, stamped);
        }
        assert Stamped(examples[..i + 1], old(lastId)) == Stamped(examples[..i], old(lastId)) + [stamped];
        astronauts := astronauts + [stamped];
        lastId := lastId + 1;
      }
      assert examples[..|examples|] == examples;
      res := Response(200, Notice(ExamplesAdded));
    }

    /** PUT /astronauts/:id; `id` is the parsed path parameter, None when it
        is not a number. The checks run in this order: id, presence, body. */
    method Update(id: Option<int>, body: Record) returns (res: Response)
      modifies this
      ensures lastId == old(lastId)
      ensures id.None? ==> res == Response(400, Notice(IdNotInteger))
      ensures id.Some? && !Contains(old(astronauts), id.value) ==>
                res == Response(404, Notice(NotFound(id.value)))
      ensures id.Some? && Contains(old(astronauts), id.value) && !IsValidAstronaut(body) ==>
                res == Response(400, Notice(FieldsIncorrect))
      ensures res.status != 200 ==> astronauts == old(astronauts)
      ensures res.status == 200 <==>
                id.Some? && Contains(old(astronauts), id.value) && IsValidAstronaut(body)
      ensures res.status == 200 ==>
                && astronauts == ReplaceById(old(astronauts), id.value, body)
                && res.payload == NoticeWith(AstronautUpdated, body)
      // a body that repeats the path id keeps the ids unique
      ensures old(Numbered(astronauts, lastId)) && id.Some? && HasId(body, id.value) ==>
                Numbered(astronauts, lastId)
    {
      if id.None? {
        return Response(400, Notice(IdNotInteger));
      }
      var i := id.value;
      if FindById(astronauts, i).None? {
        return Response(404, Notice(NotFound(i)));
      }
      if !IsValidAstronaut(body) {
        return Response(400, Notice(FieldsIncorrect));
      }
      if Numbered(astronauts, lastId) && HasId(body, i) {
        NumberedWithout(astronauts, lastId, i);
      }
      var kept := Without(astronauts, i);
      astronauts := kept + [body];
      res := Response(200, NoticeWith(AstronautUpdated, body));
    }

    /** DELETE /astronauts/:id */
    method Delete(id: Option<int>) returns (res: Response)
      modifies this
      ensures lastId == old(lastId)
      ensures id.None? ==> res == Response(400, Notice(IdNotInteger)) && astronauts == old(astronauts)
      ensures id.Some? && !Contains(old(astronauts), id.value) ==>
                res == Response(404, Notice(NotFound(id.value))) && astronauts == old(astronauts)
      ensures id.Some? && Contains(old(astronauts), id.value) ==>
                res == Response(200, Notice(AstronautDeleted)) && astronauts == Without(old(astronauts), id.value)
      ensures old(Numbered(astronauts, lastId)) ==> Numbered(astronauts, lastId)
    {
      if id.None? {
        return Response(400, Notice(IdNotInteger));
      }
      var i := id.value;
      if FindById(astronauts, i).None? {
        return Response(404, Notice(NotFound(i)));
      }
      if Numbered(astronauts, lastId) {
        NumberedWithout(astronauts, lastId, i);
      }
      astronauts := Without(astronauts, i);
      res := Response(200, Notice(AstronautDeleted));
    }
  }
}
