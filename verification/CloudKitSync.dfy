/**
 Paged synchronisation of CloudKit zones (src/icloud/cloudkit.rs): `do_sync` and the
 matching of responses to requests in `perform_operations`.
 */
module CloudKitSync {
  import opened Bytes

  type Zone = bytes
  type Token = Option<bytes>

  /** The answer to one request for changes: part of the changes and where to go on. */
  datatype Page = Page(assets: seq<bytes>, changes: seq<bytes>, token: Token, status: int)

  datatype Answer = Success(page: Page) | Fault(error: int)

  datatype Response = Response(uuid: int, answer: Answer)

  datatype Op = Op(zone: Zone, token: Token)

  /** `status` of the last page of a zone. */
  const DONE := 3

  // ----- matching responses to requests -----

  /** The first response to `uuid`; without one `perform_operations` panics. */
  function Find(uuid: int, replies: seq<Response>): Option<Answer> {
    if replies == [] then None
    else if replies[0].uuid == uuid then Some(replies[0].answer)
    else Find(uuid, replies[1..])
  }

  function Matched(uuids: seq<int>, replies: seq<Response>): Option<seq<Answer>> {
    if uuids == [] then Some([])
    else
      var first :- Find(uuids[0], replies);
      var others :- Matched(uuids[1..], replies);
      Some([first] + others)
  }

  function Tagged(uuids: seq<int>, answers: seq<Answer>): (r: seq<Response>)
    requires |uuids| == |answers|
    ensures |r| == |uuids|
  {
    if uuids == [] then [] else [Response(uuids[0], answers[0])] + Tagged(uuids[1..], answers[1..])
  }

  predicate Distinct<T(==)>(s: seq<T>) {
    forall i, j :: 0 <= i < j < |s| ==> s[i] != s[j]
  }

  lemma {:induction false} TaggedMembers(uuids: seq<int>, answers: seq<Answer>)
    requires |uuids| == |answers|
    ensures forall i :: 0 <= i < |uuids| ==> Tagged(uuids, answers)[i] == Response(uuids[i], answers[i])
  {
    if uuids != [] {
      TaggedMembers(uuids[1..], answers[1..]);
    }
  }

  lemma {:induction false} FindOnly(uuid: int, answer: Answer, replies: seq<Response>)
    requires Response(uuid, answer) in replies
    requires forall r :: r in replies && r.uuid == uuid ==> r.answer == answer
    ensures Find(uuid, replies) == Some(answer)
  {
    if replies[0].uuid != uuid {
      FindOnly(uuid, answer, replies[1..]);
    }
  }

  lemma {:induction false} MatchedAll(uuids: seq<int>, answers: seq<Answer>, replies: seq<Response>)
    requires |uuids| == |answers|
    requires forall i :: 0 <= i < |uuids| ==> Find(uuids[i], replies) == Some(answers[i])
    ensures Matched(uuids, replies) == Some(answers)
  {
    if uuids != [] {
      assert Find(uuids[0], replies) == Some(answers[0]);
      MatchedAll(uuids[1..], answers[1..], replies);
      assert [answers[0]] + answers[1..] == answers;
    }
  }

  /** Every request gets its own answer, in whatever order the responses come. */
  lemma MatchedInAnyOrder(uuids: seq<int>, answers: seq<Answer>, replies: seq<Response>)
    requires |uuids| == |answers| && Distinct(uuids)
    requires multiset(replies) == multiset(Tagged(uuids, answers))
    ensures Matched(uuids, replies) == Some(answers)
  {
    var sent := Tagged(uuids, answers);
    TaggedMembers(uuids, answers);
    forall i | 0 <= i < |uuids| ensures Find(uuids[i], replies) == Some(answers[i]) {
      assert sent[i] in multiset(sent);
      forall r | r in replies && r.uuid == uuids[i] ensures r.answer == answers[i] {
        assert r in multiset(replies);
        assert r in sent;
      }
      FindOnly(uuids[i], answers[i], replies);
    }
    MatchedAll(uuids, answers, replies);
  }

  /** The loop of `perform_operations` over its requests. */
  method MatchResponses(uuids: seq<int>, replies: seq<Response>) returns (r: Option<seq<Answer>>)
    ensures r == Matched(uuids, replies)
  {
    var responses: seq<Answer> := [];
    assert uuids[0..] == uuids;
    PrependNothing(Matched(uuids, replies));
    for k := 0 to |uuids|
      invariant Matched(uuids, replies) == Prepend(responses, Matched(uuids[k..], replies))
    {
      assert uuids[k..][1..] == uuids[k + 1..];
      var op := Find(uuids[k], replies);
      if op.None? {
        return None;
      }
      PrependOne(responses, op.value, Matched(uuids[k + 1..], replies));
      responses := responses + [op.value];
    }
    r := Some(responses);
    assert responses + [] == responses;
  }

  function Prepend(done: seq<Answer>, more: Option<seq<Answer>>): Option<seq<Answer>> {
    if more.None? then None else Some(done + more.value)
  }

  lemma PrependNothing(more: Option<seq<Answer>>)
    ensures Prepend([], more) == more
  {
    if more.Some? {
      assert [] + more.value == more.value;
    }
  }

  lemma PrependOne(done: seq<Answer>, x: Answer, more: Option<seq<Answer>>)
    ensures Prepend(done, Prepend([x], more)) == Prepend(done + [x], more)
  {
    if more.Some? {
      assert done + ([x] + more.value) == done + [x] + more.value;
    }
  }

  // ----- the server -----

  /** What the server gives one zone: pages, the last of them marked, or an error behind pages not marked. */
  datatype Script = Script(pages: seq<Page>, fault: Option<int>) {
    function Length(): nat {
      |pages| + if fault.Some? then 1 else 0
    }

    predicate Valid() {
      && (forall i :: 0 <= i < |pages| - 1 ==> pages[i].status != DONE)
      && (fault.Some? ==> pages == [] || pages[|pages| - 1].status != DONE)
      && (fault.None? ==> pages != [] && pages[|pages| - 1].status == DONE)
    }

    function At(k: nat): Answer
      requires k < Length()
    {
      if k < |pages| then Success(pages[k]) else Fault(fault.value)
    }
  }

  /** A server with finitely many pages for each zone asked for; `asked` are the tokens it has been sent. */
  class Server {
    const scripts: seq<Script>
    var asked: seq<seq<Token>>

    constructor (scripts: seq<Script>)
      ensures this.scripts == scripts
      ensures |asked| == |scripts| && forall i :: 0 <= i < |asked| ==> asked[i] == []
    {
      this.scripts := scripts;
      asked := seq(|scripts|, _ => []);
    }

    method Ask(index: nat, token: Token) returns (answer: Answer)
      requires |asked| == |scripts| && index < |scripts| && |asked[index]| < scripts[index].Length()
      modifies this
      ensures answer == scripts[index].At(old(|asked[index]|))
      ensures asked == old(asked)[index := old(asked)[index] + [token]]
    {
      answer := scripts[index].At(|asked[index]|);
      asked := asked[index := asked[index] + [token]];
    }
  }

  // ----- do_sync -----

  /** What is gathered of one zone: its assets, its changes and the token to go on with. */
  datatype Gathered = Gathered(assets: seq<bytes>, changes: seq<bytes>, token: Token) {
    function Then(page: Page): Gathered {
      Gathered(assets + page.assets, changes + page.changes, page.token)
    }
  }

  /** The pages joined in order, with the token of the last. */
  function Joined(token: Token, pages: seq<Page>): Gathered {
    if pages == [] then Gathered([], [], token) else Joined(token, pages[..|pages| - 1]).Then(pages[|pages| - 1])
  }

  /** The tokens that fetch `pages` one after the other: the first, then that of each page but the last. */
  function Tokens(token: Token, pages: seq<Page>): (r: seq<Token>)
    ensures |r| == |pages|
    decreases |pages|
  {
    if pages == [] then [] else [token] + Tokens(pages[0].token, pages[1..])
  }

  lemma {:induction false} TokensNext(token: Token, pages: seq<Page>, page: Page)
    ensures Tokens(token, pages + [page]) == Tokens(token, pages) + [Joined(token, pages).token]
    decreases |pages|
  {
    if pages == [] {
      assert Tokens(token, [page])[1..] == [];
    } else {
      TokensNext(pages[0].token, pages[1..], page);
      assert (pages + [page])[1..] == pages[1..] + [page];
      JoinedToken(token, pages);
      if |pages| > 1 {
        JoinedToken(pages[0].token, pages[1..]);
      }
    }
  }

  lemma JoinedToken(token: Token, pages: seq<Page>)
    ensures Joined(token, pages).token == if pages == [] then token else pages[|pages| - 1].token
  {
  }

  lemma JoinedNext(token: Token, pages: seq<Page>, k: nat)
    requires k < |pages|
    ensures Joined(token, pages[..k + 1]) == Joined(token, pages[..k]).Then(pages[k])
    ensures Tokens(token, pages[..k + 1]) == Tokens(token, pages[..k]) + [Joined(token, pages[..k]).token]
  {
    assert pages[..k + 1] == pages[..k] + [pages[k]];
    assert pages[..k + 1][..k] == pages[..k];
    TokensNext(token, pages[..k], pages[k]);
  }

  /** The zones asked for, each with the token to start from. */
  type Request = (Zone, Token)

  datatype Outcome = Synced(responses: seq<Gathered>) | Failed(error: int) | Panicked

  /** No request for the same zone has fewer answers than request `i`. */
  ghost predicate Leads(zones: seq<Request>, scripts: seq<Script>, i: nat)
    requires i < |zones| == |scripts|
  {
    forall j :: 0 <= j < |zones| && zones[j].0 == zones[i].0 ==> scripts[i].Length() <= scripts[j].Length()
  }

  /** Some zone's answers end in the error, and it is reached. */
  ghost predicate Reached(zones: seq<Request>, scripts: seq<Script>, error: int)
    requires |zones| == |scripts|
  {
    exists i :: 0 <= i < |zones| && scripts[i].fault == Some(error) && Leads(zones, scripts, i)
  }

  ghost predicate Faulty(zones: seq<Request>, scripts: seq<Script>)
    requires |zones| == |scripts|
  {
    exists error :: Reached(zones, scripts, error)
  }

  /** Requests for the same zone have equally many answers. */
  ghost predicate Even(zones: seq<Request>, scripts: seq<Script>)
    requires |zones| == |scripts|
  {
    forall i :: 0 <= i < |zones| ==> Leads(zones, scripts, i)
  }

  /** The requests whose zone is not finished, in order. */
  function Unfinished(zones: seq<Request>, finished: seq<Zone>, from: nat): (r: seq<nat>)
    requires from <= |zones|
    ensures forall c :: 0 <= c < |r| ==> from <= r[c] < |zones| && zones[r[c]].0 !in finished
    ensures forall c, d :: 0 <= c < d < |r| ==> r[c] < r[d]
    ensures forall i :: from <= i < |zones| && zones[i].0 !in finished ==> i in r
    decreases |zones| - from
  {
    if from == |zones| then []
    else (if zones[from].0 in finished then [] else [from]) + Unfinished(zones, finished, from + 1)
  }

  /**
   After `round` rounds a request is `done` with all its pages, or its zone is still asked
   for, or it was overtaken by a request for the same zone that had fewer answers.
   */
  ghost predicate Fine(zones: seq<Request>, scripts: seq<Script>, finished: seq<Zone>, done: set<nat>, round: nat, i: nat,
                       gathered: Gathered, asked: seq<Token>)
    requires i < |zones| == |scripts|
  {
    var (zone, token), script := zones[i], scripts[i];
    if i in done then
      && zone in finished && script.fault.None? && Leads(zones, scripts, i)
      && gathered == Joined(token, script.pages) && asked == Tokens(token, script.pages)
    else if zone in finished then Overtaken(zones, scripts, done, i)
    else
      && round < script.Length()
      && gathered == Joined(token, script.pages[..round]) && asked == Tokens(token, script.pages[..round])
  }

  ghost predicate Overtaken(zones: seq<Request>, scripts: seq<Script>, done: set<nat>, i: nat)
    requires i < |zones| == |scripts|
  {
    exists j :: 0 <= j < |zones| && j in done && zones[j].0 == zones[i].0 && scripts[j].Length() < scripts[i].Length()
  }

  ghost predicate Progress(zones: seq<Request>, scripts: seq<Script>, finished: seq<Zone>, done: set<nat>, round: nat,
                           responses: seq<Gathered>, asked: seq<seq<Token>>)
  {
    && |zones| == |scripts| == |responses| == |asked|
    && |finished| == |done|
    && (forall i :: i in done ==> i < |zones|)
    && (forall i :: 0 <= i < |zones| ==> Fine(zones, scripts, finished, done, round, i, responses[i], asked[i]))
  }

  /** The zones whose last page is among the first `c` pages of a round. */
  function Finishing(zones: seq<Request>, active: seq<nat>, pages: seq<Page>, c: nat): seq<Zone>
    requires c <= |active| == |pages| && forall d :: 0 <= d < |active| ==> active[d] < |zones|
  {
    if c == 0 then []
    else
      var before := Finishing(zones, active, pages, c - 1);
      if pages[c - 1].status == DONE then before + [zones[active[c - 1]].0] else before
  }

  function FinishingSet(active: seq<nat>, pages: seq<Page>, c: nat): (r: set<nat>)
    requires c <= |active| == |pages|
    ensures forall i :: i in r <==> exists d :: 0 <= d < c && active[d] == i && pages[d].status == DONE
  {
    if c == 0 then {}
    else
      var before := FinishingSet(active, pages, c - 1);
      if pages[c - 1].status == DONE then before + {active[c - 1]} else before
  }

  lemma {:induction false} FinishingCounts(zones: seq<Request>, active: seq<nat>, pages: seq<Page>, c: nat)
    requires c <= |active| == |pages| && forall d :: 0 <= d < |active| ==> active[d] < |zones|
    requires Distinct(active)
    ensures |Finishing(zones, active, pages, c)| == |FinishingSet(active, pages, c)|
  {
    if c > 0 {
      FinishingCounts(zones, active, pages, c - 1);
      assert active[c - 1] !in FinishingSet(active, pages, c - 1);
    }
  }

  lemma {:induction false} FinishingZone(zones: seq<Request>, active: seq<nat>, pages: seq<Page>, c: nat, z: Zone)
    requires c <= |active| == |pages| && forall d :: 0 <= d < |active| ==> active[d] < |zones|
    ensures z in Finishing(zones, active, pages, c)
       <==> exists d :: 0 <= d < c && pages[d].status == DONE && zones[active[d]].0 == z
  {
    if c > 0 {
      FinishingZone(zones, active, pages, c - 1, z);
    }
  }

  datatype Collection = Pages(pages: seq<Page>) | FirstFault(error: int)

  /** `collect`: the first error, or all the pages. */
  function Collected(answers: seq<Answer>): Collection {
    if answers == [] then Pages([])
    else match answers[0]
         case Fault(error) => FirstFault(error)
         case Success(page) =>
           match Collected(answers[1..])
           case FirstFault(error) => FirstFault(error)
           case Pages(pages) => Pages([page] + pages)
  }

  lemma {:induction false} CollectedAll(answers: seq<Answer>)
    ensures match Collected(answers)
      case Pages(pages) =>
        |pages| == |answers| && forall c :: 0 <= c < |pages| ==> answers[c] == Success(pages[c])
      case FirstFault(error) => Fault(error) in answers
  {
    if answers != [] {
      CollectedAll(answers[1..]);
    }
  }

  // ----- one round -----

  /** A round: the unfinished requests are asked, and all of them answered with pages. */
  ghost predicate Round(zones: seq<Request>, scripts: seq<Script>, finished: seq<Zone>, done: set<nat>, round: nat,
                        active: seq<nat>, pages: seq<Page>)
  {
    && |zones| == |scripts| && |active| == |pages| && Distinct(active)
    && (forall c :: 0 <= c < |active| ==> active[c] < |zones| && zones[active[c]].0 !in finished && active[c] !in done)
    && (forall i :: 0 <= i < |zones| && zones[i].0 !in finished ==> i in active)
    && (forall c :: 0 <= c < |active| ==>
          scripts[active[c]].Valid() && round < scripts[active[c]].Length()
          && scripts[active[c]].At(round) == Success(pages[c]))
  }

  /** A request whose last page came. */
  lemma NextDone(zones: seq<Request>, scripts: seq<Script>, finished: seq<Zone>, done: set<nat>, round: nat,
                 active: seq<nat>, pages: seq<Page>, c: nat)
    requires Round(zones, scripts, finished, done, round, active, pages)
    requires c < |active| && pages[c].status == DONE
    ensures var i := active[c];
      && scripts[i].fault.None? && round + 1 == |scripts[i].pages| && scripts[i].pages[..round + 1] == scripts[i].pages
      && Leads(zones, scripts, i)
  {
  }

  /** A request that goes on, unless another one for its zone came to its end. */
  lemma NextOpen(zones: seq<Request>, scripts: seq<Script>, finished: seq<Zone>, done: set<nat>, round: nat,
                 active: seq<nat>, pages: seq<Page>, c: nat)
    requires Round(zones, scripts, finished, done, round, active, pages)
    requires c < |active| && pages[c].status != DONE
    ensures var i := active[c];
      && round + 1 < scripts[i].Length() && i !in FinishingSet(active, pages, |active|)
      && (zones[i].0 in finished + Finishing(zones, active, pages, |active|)
          ==> Overtaken(zones, scripts, done + FinishingSet(active, pages, |active|), i))
  {
    var zone := zones[active[c]].0;
    FinishingZone(zones, active, pages, |active|, zone);
    if zone in Finishing(zones, active, pages, |active|) {
      var d :| 0 <= d < |active| && pages[d].status == DONE && zones[active[d]].0 == zone;
      NextDone(zones, scripts, finished, done, round, active, pages, d);
      assert active[d] in FinishingSet(active, pages, |active|);
    }
  }

  lemma NextAsked(zones: seq<Request>, scripts: seq<Script>, finished: seq<Zone>, done: set<nat>, round: nat,
                  active: seq<nat>, pages: seq<Page>, c: nat, before: Gathered, asked: seq<Token>)
    requires Round(zones, scripts, finished, done, round, active, pages) && c < |active|
    requires Fine(zones, scripts, finished, done, round, active[c], before, asked)
    ensures Fine(zones, scripts, finished + Finishing(zones, active, pages, |active|),
                 done + FinishingSet(active, pages, |active|), round + 1, active[c],
                 before.Then(pages[c]), asked + [before.token])
  {
    var i := active[c];
    JoinedNext(zones[i].1, scripts[i].pages, round);
    if pages[c].status == DONE {
      NextDone(zones, scripts, finished, done, round, active, pages, c);
      FinishingZone(zones, active, pages, |active|, zones[i].0);
      assert i in FinishingSet(active, pages, |active|);
    } else {
      NextOpen(zones, scripts, finished, done, round, active, pages, c);
    }
  }

  lemma NextUnasked(zones: seq<Request>, scripts: seq<Script>, finished: seq<Zone>, done: set<nat>, round: nat,
                    active: seq<nat>, pages: seq<Page>, i: nat, gathered: Gathered, asked: seq<Token>)
    requires Round(zones, scripts, finished, done, round, active, pages) && i < |zones| && i !in active
    requires Fine(zones, scripts, finished, done, round, i, gathered, asked)
    ensures Fine(zones, scripts, finished + Finishing(zones, active, pages, |active|),
                 done + FinishingSet(active, pages, |active|), round + 1, i, gathered, asked)
  {
    assert i !in FinishingSet(active, pages, |active|);
    if i !in done {
      var j :| 0 <= j < |zones| && j in done && zones[j].0 == zones[i].0 && scripts[j].Length() < scripts[i].Length();
      assert j in done + FinishingSet(active, pages, |active|);
    }
  }

  lemma NextCounts(zones: seq<Request>, scripts: seq<Script>, finished: seq<Zone>, done: set<nat>, round: nat,
                   active: seq<nat>, pages: seq<Page>)
    requires Round(zones, scripts, finished, done, round, active, pages) && |finished| == |done|
    ensures |finished + Finishing(zones, active, pages, |active|)| == |done + FinishingSet(active, pages, |active|)|
    ensures forall i :: i in FinishingSet(active, pages, |active|) ==> i < |zones|
  {
    FinishingCounts(zones, active, pages, |active|);
    assert done !! FinishingSet(active, pages, |active|);
  }

  lemma NextFine(zones: seq<Request>, scripts: seq<Script>, finished: seq<Zone>, done: set<nat>, round: nat,
                 active: seq<nat>, pages: seq<Page>, i: nat, was: Gathered, wasAsked: seq<Token>, now: Gathered, nowAsked: seq<Token>)
    requires Round(zones, scripts, finished, done, round, active, pages)
    requires i < |zones| && Fine(zones, scripts, finished, done, round, i, was, wasAsked)
    requires forall c :: 0 <= c < |active| && active[c] == i ==> now == was.Then(pages[c]) && nowAsked == wasAsked + [was.token]
    requires i !in active ==> now == was && nowAsked == wasAsked
    ensures Fine(zones, scripts, finished + Finishing(zones, active, pages, |active|),
                 done + FinishingSet(active, pages, |active|), round + 1, i, now, nowAsked)
  {
    if i in active {
      var c :| 0 <= c < |active| && active[c] == i;
      NextAsked(zones, scripts, finished, done, round, active, pages, c, was, wasAsked);
    } else {
      NextUnasked(zones, scripts, finished, done, round, active, pages, i, was, wasAsked);
    }
  }

  /** The round keeps everything in step. */
  lemma NextProgress(zones: seq<Request>, scripts: seq<Script>, finished: seq<Zone>, done: set<nat>, round: nat,
                     active: seq<nat>, pages: seq<Page>, responses: seq<Gathered>, asked: seq<seq<Token>>,
                     responses': seq<Gathered>, asked': seq<seq<Token>>)
    requires Progress(zones, scripts, finished, done, round, responses, asked)
    requires Round(zones, scripts, finished, done, round, active, pages)
    requires |responses'| == |asked'| == |zones|
    requires forall c :: 0 <= c < |active| ==>
      responses'[active[c]] == responses[active[c]].Then(pages[c])
      && asked'[active[c]] == asked[active[c]] + [responses[active[c]].token]
    requires forall i :: 0 <= i < |zones| && i !in active ==> responses'[i] == responses[i] && asked'[i] == asked[i]
    ensures Progress(zones, scripts, finished + Finishing(zones, active, pages, |active|),
                     done + FinishingSet(active, pages, |active|), round + 1, responses', asked')
  {
    NextCounts(zones, scripts, finished, done, round, active, pages);
    forall i | 0 <= i < |zones|
      ensures Fine(zones, scripts, finished + Finishing(zones, active, pages, |active|),
                   done + FinishingSet(active, pages, |active|), round + 1, i, responses'[i], asked'[i])
    {
      NextFine(zones, scripts, finished, done, round, active, pages, i, responses[i], asked[i], responses'[i], asked'[i]);
    }
  }

  /** The server side of a round: every request asked is answered from its script. */
  method AskAll(server: Server, active: seq<nat>, responses: seq<Gathered>, ghost round: nat) returns (answers: seq<Answer>)
    requires |server.asked| == |server.scripts| == |responses| && Distinct(active)
    requires forall c :: 0 <= c < |active| ==>
      active[c] < |responses| && |server.asked[active[c]]| == round < server.scripts[active[c]].Length()
    modifies server
    ensures |server.asked| == |server.scripts| && |answers| == |active|
    ensures forall c :: 0 <= c < |active| ==>
      answers[c] == server.scripts[active[c]].At(round)
      && server.asked[active[c]] == old(server.asked)[active[c]] + [responses[active[c]].token]
    ensures forall i :: 0 <= i < |server.asked| && i !in active ==> server.asked[i] == old(server.asked)[i]
  {
    answers := [];
    for c := 0 to |active|
      invariant |server.asked| == |server.scripts| && |answers| == c
      invariant forall d :: 0 <= d < c ==>
        answers[d] == server.scripts[active[d]].At(round)
        && server.asked[active[d]] == old(server.asked)[active[d]] + [responses[active[d]].token]
      invariant forall d :: c <= d < |active| ==> server.asked[active[d]] == old(server.asked)[active[d]]
      invariant forall i :: 0 <= i < |server.asked| && i !in active ==> server.asked[i] == old(server.asked)[i]
    {
      var answer := server.Ask(active[c], responses[active[c]].token);
      answers := answers + [answer];
    }
  }

  /** The loop of `do_sync` over the results of one round. */
  method Absorb(zones: seq<Request>, active: seq<nat>, pages: seq<Page>, responses: seq<Gathered>, finished: seq<Zone>)
    returns (responses': seq<Gathered>, finished': seq<Zone>)
    requires |responses| == |zones| && |active| == |pages| && Distinct(active)
    requires forall c :: 0 <= c < |active| ==> active[c] < |zones|
    ensures |responses'| == |zones| && finished' == finished + Finishing(zones, active, pages, |active|)
    ensures forall c :: 0 <= c < |active| ==> responses'[active[c]] == responses[active[c]].Then(pages[c])
    ensures forall i :: 0 <= i < |zones| && i !in active ==> responses'[i] == responses[i]
  {
    responses', finished' := responses, finished;
    for c := 0 to |active|
      invariant |responses'| == |zones| && finished' == finished + Finishing(zones, active, pages, c)
      invariant forall d :: 0 <= d < c ==> responses'[active[d]] == responses[active[d]].Then(pages[d])
      invariant forall d :: c <= d < |active| ==> responses'[active[d]] == responses[active[d]]
      invariant forall i :: 0 <= i < |zones| && i !in active ==> responses'[i] == responses[i]
    {
      if pages[c].status == DONE {
        // done syncing
        finished' := finished' + [zones[active[c]].0];
      }
      responses' := responses'[active[c] := responses'[active[c]].Then(pages[c])];
    }
  }

  /** How many rounds there can be. */
  function Longest(scripts: seq<Script>): (r: nat)
    ensures forall i :: 0 <= i < |scripts| ==> scripts[i].Length() <= r
  {
    if scripts == [] then 0
    else
      var others := Longest(scripts[1..]);
      if others < scripts[0].Length() then scripts[0].Length() else others
  }

  lemma StartRound(zones: seq<Request>, scripts: seq<Script>, finished: seq<Zone>, done: set<nat>, round: nat,
                   responses: seq<Gathered>, asked: seq<seq<Token>>, active: seq<nat>)
    requires Progress(zones, scripts, finished, done, round, responses, asked)
    requires forall i :: 0 <= i < |zones| ==> scripts[i].Valid()
    requires active == Unfinished(zones, finished, 0) && active != []
    ensures Distinct(active) && round < Longest(scripts)
    ensures forall c :: 0 <= c < |active| ==>
      && active[c] < |zones| && zones[active[c]].0 !in finished && active[c] !in done
      && |asked[active[c]]| == round < scripts[active[c]].Length()
    ensures forall i :: 0 <= i < |zones| && zones[i].0 !in finished ==> i in active
  {
    forall c | 0 <= c < |active|
      ensures active[c] !in done && |asked[active[c]]| == round < scripts[active[c]].Length()
    {
      assert Fine(zones, scripts, finished, done, round, active[c], responses[active[c]], asked[active[c]]);
    }
    assert scripts[active[0]].Length() <= Longest(scripts);
  }

  lemma FaultReached(zones: seq<Request>, scripts: seq<Script>, finished: seq<Zone>, done: set<nat>, round: nat,
                     responses: seq<Gathered>, asked: seq<seq<Token>>, active: seq<nat>, answers: seq<Answer>, error: int)
    requires Progress(zones, scripts, finished, done, round, responses, asked)
    requires active == Unfinished(zones, finished, 0) && |answers| == |active|
    requires forall c :: 0 <= c < |active| ==>
      round < scripts[active[c]].Length() && answers[c] == scripts[active[c]].At(round)
    requires Fault(error) in answers
    ensures |zones| == |scripts| && Reached(zones, scripts, error)
  {
    var c :| 0 <= c < |active| && answers[c] == Fault(error);
    assert Leads(zones, scripts, active[c]);
  }

  /** Requests that are all done or overtaken hold no error that is reached. */
  lemma NoFault(zones: seq<Request>, scripts: seq<Script>, finished: seq<Zone>, done: set<nat>, round: nat,
                responses: seq<Gathered>, asked: seq<seq<Token>>)
    requires Progress(zones, scripts, finished, done, round, responses, asked)
    requires forall i :: 0 <= i < |zones| ==> zones[i].0 in finished
    ensures |zones| == |scripts| && !Faulty(zones, scripts)
  {
    forall i | 0 <= i < |zones| && scripts[i].fault.Some?
      ensures !Leads(zones, scripts, i)
    {
      assert Fine(zones, scripts, finished, done, round, i, responses[i], asked[i]);
    }
  }

  lemma PanicUneven(zones: seq<Request>, scripts: seq<Script>, finished: seq<Zone>, done: set<nat>, round: nat,
                    responses: seq<Gathered>, asked: seq<seq<Token>>)
    requires Progress(zones, scripts, finished, done, round, responses, asked)
    requires |finished| != |zones| && Unfinished(zones, finished, 0) == []
    ensures |zones| == |scripts| && !Faulty(zones, scripts) && !Even(zones, scripts)
    ensures exists i, j :: 0 <= i < j < |zones| && zones[i].0 == zones[j].0
  {
    NoFault(zones, scripts, finished, done, round, responses, asked);
    if forall i :: 0 <= i < |zones| ==> i in done {
      Indices(done, |zones|);
    }
    var i :| 0 <= i < |zones| && i !in done;
    assert Fine(zones, scripts, finished, done, round, i, responses[i], asked[i]);
    assert !Leads(zones, scripts, i);
    var j :| 0 <= j < |zones| && j != i && zones[j].0 == zones[i].0;
    assert zones[if i < j then i else j].0 == zones[if i < j then j else i].0;
  }

  lemma AllDone(zones: seq<Request>, scripts: seq<Script>, finished: seq<Zone>, done: set<nat>, round: nat,
                responses: seq<Gathered>, asked: seq<seq<Token>>)
    requires Progress(zones, scripts, finished, done, round, responses, asked)
    requires |finished| == |zones|
    ensures |zones| == |scripts| && !Faulty(zones, scripts) && Even(zones, scripts)
    ensures forall i :: 0 <= i < |zones| ==>
      responses[i] == Joined(zones[i].1, scripts[i].pages) && asked[i] == Tokens(zones[i].1, scripts[i].pages)
  {
    Indices(done, |zones|);
    forall i | 0 <= i < |zones|
      ensures zones[i].0 in finished && Leads(zones, scripts, i)
      ensures responses[i] == Joined(zones[i].1, scripts[i].pages) && asked[i] == Tokens(zones[i].1, scripts[i].pages)
    {
      assert i in done && Fine(zones, scripts, finished, done, round, i, responses[i], asked[i]);
    }
    NoFault(zones, scripts, finished, done, round, responses, asked);
  }

  /** A set of indices below `n` has all of them exactly if it has `n` members. */
  lemma {:induction false} Indices(s: set<nat>, n: nat)
    requires forall i :: i in s ==> i < n
    ensures |s| <= n
    ensures |s| == n <==> forall i :: 0 <= i < n ==> i in s
  {
    if n > 0 {
      Indices(s - {n - 1}, n - 1);
      assert n - 1 in s ==> |s - {n - 1}| == |s| - 1;
      assert n - 1 !in s ==> s - {n - 1} == s;
    }
  }

  /** `perform_operations`: all requests are sent, and each gets its own answer out of the shuffled responses. */
  method Perform(server: Server, active: seq<nat>, responses: seq<Gathered>, ghost round: nat, uuids: seq<int>,
                 shuffle: seq<Response> -> seq<Response>) returns (answers: seq<Answer>)
    requires |server.asked| == |server.scripts| == |responses| && Distinct(active)
    requires |uuids| == |active| && Distinct(uuids)
    requires forall c :: 0 <= c < |active| ==>
      active[c] < |responses| && |server.asked[active[c]]| == round < server.scripts[active[c]].Length()
    requires forall s: seq<Response> :: multiset(shuffle(s)) == multiset(s)
    modifies server
    ensures |server.asked| == |server.scripts| && |answers| == |active|
    ensures forall c :: 0 <= c < |active| ==>
      answers[c] == server.scripts[active[c]].At(round)
      && server.asked[active[c]] == old(server.asked)[active[c]] + [responses[active[c]].token]
    ensures forall i :: 0 <= i < |server.asked| && i !in active ==> server.asked[i] == old(server.asked)[i]
  {
    answers := AskAll(server, active, responses, round);
    var replies := shuffle(Tagged(uuids, answers));
    MatchedInAnyOrder(uuids, answers, replies);
    var results := MatchResponses(uuids, replies);
    answers := results.value;
  }

  /**
   `do_sync`.  It always ends.  It fails exactly if an error of the server is reached;
   else it panics, on an empty list of operations, exactly if requests for the same zone
   have different numbers of pages.  Otherwise each request gets all its pages joined in order, each of
   them fetched once.

   `draw(k, c)` are the fresh UUIDs of round `k`, `shuffle` the order the responses come in.
   */
  method DoSync(zones: seq<Request>, server: Server, draw: (nat, nat) -> int,
                shuffle: (nat, seq<Response>) -> seq<Response>) returns (r: Outcome)
    requires |server.asked| == |server.scripts| == |zones|
    requires forall i :: 0 <= i < |zones| ==> server.scripts[i].Valid() && server.asked[i] == []
    requires forall k: nat, c: nat, d: nat :: c < d ==> draw(k, c) != draw(k, d)
    requires forall k: nat, s: seq<Response> :: multiset(shuffle(k, s)) == multiset(s)
    modifies server
    ensures r.Failed? <==> Faulty(zones, server.scripts)
    ensures r.Failed? ==> Reached(zones, server.scripts, r.error)
    ensures r.Panicked? ==> exists i, j :: 0 <= i < j < |zones| && zones[i].0 == zones[j].0
    ensures r.Synced? <==> !Faulty(zones, server.scripts) && Even(zones, server.scripts)
    ensures r.Synced? ==>
      && |r.responses| == |zones| == |server.asked|
      && forall i :: 0 <= i < |zones| ==>
           && r.responses[i] == Joined(zones[i].1, server.scripts[i].pages)
           && server.asked[i] == Tokens(zones[i].1, server.scripts[i].pages)
  {
    ghost var scripts := server.scripts;
    var responses := seq(|zones|, i requires 0 <= i < |zones| => Gathered([], [], zones[i].1));
    var finished: seq<Zone> := [];
    ghost var done: set<nat> := {};
    ghost var round: nat := 0;
    var k: nat := 0;
    while |finished| != |zones|
      invariant round == k <= Longest(scripts)
      invariant Progress(zones, scripts, finished, done, round, responses, server.asked)
      decreases Longest(scripts) - k
    {
      var active := Unfinished(zones, finished, 0);
      if active == [] {
        PanicUneven(zones, scripts, finished, done, round, responses, server.asked);
        return Panicked;
      }
      StartRound(zones, scripts, finished, done, round, responses, server.asked, active);
      ghost var asked := server.asked;
      var uuids := seq(|active|, c requires 0 <= c < |active| => draw(k, c));
      var answers := Perform(server, active, responses, round, uuids, s => shuffle(k, s));
      CollectedAll(answers);
      match Collected(answers) {
        case FirstFault(error) =>
          FaultReached(zones, scripts, finished, done, round, responses, asked, active, answers, error);
          return Failed(error);
        case Pages(pages) =>
          ghost var before, were := responses, finished;
          responses, finished := Absorb(zones, active, pages, responses, finished);
          NextProgress(zones, scripts, were, done, round, active, pages, before, asked, responses, server.asked);
          done := done + FinishingSet(active, pages, |active|);
          k, round := k + 1, round + 1;
      }
    }
    AllDone(zones, scripts, finished, done, round, responses, server.asked);
    r := Synced(responses);
  }
}
