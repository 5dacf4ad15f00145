/** The HTTP client: one request through the challenge-solving session, a fallback to the
  * FlareSolverr service when the site answers with a Cloudflare challenge (whose cookies the
  * client then keeps), and a bounded retry loop around it. The network is a parameter: the
  * outcome of the n-th attempt. */
module HttpClient {
  import opened Wrappers

  /** The browser identity every request sends. */
  const UserAgent: string :=
    "Mozilla/5.0 (X11; Linux x86_64) AppleWebKit/537.36 (KHTML, like Gecko) Chrome/110.0.0.0 Safari/537.36"

  /** What the FlareSolverr service answers: a solved page with its cookies (name and value
    * pairs, in order), an `ok` reply with cookies but no `solution.response` (the cookies are
    * stored, then the lookup raises KeyError), a reply without status `ok`, a reply whose HTTP
    * status is not 200, or an exception before the cookies are stored (unreachable server,
    * malformed reply, no cookie list). */
  datatype SolverReply =
    | SolverOk(cookies: seq<(string, string)>, response: string)
    | SolverOkNoResponse(cookies: seq<(string, string)>)
    | SolverRefused
    | SolverDown
    | SolverRaises

  /** One attempt of `_get`: the site answers with a status and a body, or raises the
    * Cloudflare challenge (and the solver is asked), or raises any other exception. */
  datatype Attempt = Response(status: int, body: string) | Challenge(reply: SolverReply) | Raises

  /** The attempt raises out of `_get`, so the retry loop catches it. */
  predicate Raising(a: Attempt) {
    a.Raises? || (a.Challenge? && (a.reply.SolverRaises? || a.reply.SolverOkNoResponse?))
  }

  /** The attempt stores the solver's cookies: an `ok` reply, with or without a page. */
  predicate SetsCookies(a: Attempt) {
    a.Challenge? && (a.reply.SolverOk? || a.reply.SolverOkNoResponse?)
  }

  /** `{c['name']: c['value'] for c in cookies}`: a later cookie of the same name wins. */
  function CookieMap(ps: seq<(string, string)>): map<string, string> {
    if ps == [] then map[] else CookieMap(ps[..|ps| - 1])[ps[|ps| - 1].0 := ps[|ps| - 1].1]
  }

  /** The map holds exactly the names of the reply's cookies, each with the value of its last
    * occurrence. */
  lemma {:induction false} CookieMapLookup(ps: seq<(string, string)>)
    ensures forall k :: k in CookieMap(ps) <==> exists i :: 0 <= i < |ps| && ps[i].0 == k
    ensures forall i :: 0 <= i < |ps| && (forall j :: i < j < |ps| ==> ps[j].0 != ps[i].0) ==>
              CookieMap(ps)[ps[i].0] == ps[i].1
  {
    if ps != [] {
      var init := ps[..|ps| - 1];
      CookieMapLookup(init);
      assert forall i :: 0 <= i < |init| ==> init[i] == ps[i];
      forall k | k in CookieMap(ps) ensures exists i :: 0 <= i < |ps| && ps[i].0 == k {
        if k != ps[|ps| - 1].0 {
          var i :| 0 <= i < |init| && init[i].0 == k;
          assert ps[i].0 == k;
        }
      }
    }
  }

  /** What a non-raising attempt returns: the body of a 200 response, the solver's page when
    * it solved the challenge, and None otherwise. */
  function AttemptBody(a: Attempt): (r: Option<string>)
    ensures r.Some? <==> (a.Response? && a.status == 200) || (a.Challenge? && a.reply.SolverOk?)
  {
    match a
    case Response(status, body) => if status == 200 then Some(body) else None
    case Challenge(reply) => if reply.SolverOk? then Some(reply.response) else None
    case Raises => None
  }

  /** The cookies after an attempt: replaced by the solver's when it replied `ok`, even when
    * the attempt then raises. */
  function AttemptCookies(a: Attempt, cookies: Option<map<string, string>>): (r: Option<map<string, string>>)
    ensures SetsCookies(a) ==> r == Some(CookieMap(a.reply.cookies))
    ensures !SetsCookies(a) ==> r == cookies
  {
    if SetsCookies(a) then Some(CookieMap(a.reply.cookies)) else cookies
  }

  /** The index of the first attempt below `retry`, from attempt k on, that does not raise. */
  function FirstAnswer(outcome: nat -> Attempt, k: nat, retry: int): (r: Option<nat>)
    ensures r.Some? ==> k <= r.value < retry && !Raising(outcome(r.value))
    ensures r.Some? ==> forall j :: k <= j < r.value ==> Raising(outcome(j))
    ensures r.None? ==> forall j :: k <= j < retry ==> Raising(outcome(j))
    decreases retry - k
  {
    if k >= retry then None
    else if !Raising(outcome(k)) then Some(k)
    else FirstAnswer(outcome, k + 1, retry)
  }

  /** What `get` produces: the page (or None), the cookies afterwards, and the attempts made. */
  datatype GetResult = GetResult(body: Option<string>, cookies: Option<map<string, string>>, attempts: nat)

  /** The loop of `get` from attempt k on, with the cookies attempt k starts from. */
  function GetFrom(outcome: nat -> Attempt, k: nat, retry: int, cookies: Option<map<string, string>>): GetResult
    decreases retry - k
  {
    if k >= retry then GetResult(None, cookies, if retry > 0 then retry else 0)
    else
      var after := AttemptCookies(outcome(k), cookies);
      if Raising(outcome(k)) then GetFrom(outcome, k + 1, retry, after)
      else GetResult(AttemptBody(outcome(k)), after, k + 1)
  }

  /** `get`: the first attempt that does not raise ends the loop with its answer, even when
    * that answer is None; when every one of the `retry` attempts raises, the answer is None. */
  function GetSpec(outcome: nat -> Attempt, retry: int, cookies: Option<map<string, string>>): GetResult {
    GetFrom(outcome, 0, retry, cookies)
  }

  /** From attempt k on: the loop answers with the first attempt that does not raise, or with
    * None after `retry` attempts; the cookies are the ones it started with unless an attempt
    * it made stored the solver's cookies, and then they are that attempt's. */
  lemma {:induction false} GetFromAnswer(outcome: nat -> Attempt, k: nat, retry: int, cookies: Option<map<string, string>>)
    ensures var g := GetFrom(outcome, k, retry, cookies);
            && g.attempts == (match FirstAnswer(outcome, k, retry)
                              case Some(i) => i + 1
                              case None => if retry > 0 then retry else 0)
            && g.body == (match FirstAnswer(outcome, k, retry)
                          case Some(i) => AttemptBody(outcome(i))
                          case None => None)
            && ((forall j :: k <= j < g.attempts ==> !SetsCookies(outcome(j))) ==> g.cookies == cookies)
            && (g.cookies == cookies ||
                exists j :: k <= j < g.attempts && SetsCookies(outcome(j)) && g.cookies == Some(CookieMap(outcome(j).reply.cookies)))
    decreases retry - k
  {
    if k < retry && Raising(outcome(k)) {
      var after := AttemptCookies(outcome(k), cookies);
      GetFromAnswer(outcome, k + 1, retry, after);
      var g := GetFrom(outcome, k, retry, cookies);
      assert g == GetFrom(outcome, k + 1, retry, after);
      if g.cookies != cookies && g.cookies == after {
        assert SetsCookies(outcome(k));
      }
    }
  }

  /** At most `retry` attempts (none when it is not positive); a page is returned only by an
    * attempt that did not raise, after only raising ones; the cookies change only when an
    * attempt made stored the solver's cookies (an `ok` reply, even one that then raised), and
    * then they are the cookies of such an attempt. */
  lemma GetSpecBounds(outcome: nat -> Attempt, retry: int, cookies: Option<map<string, string>>)
    ensures var g := GetSpec(outcome, retry, cookies);
            && g.attempts <= (if retry > 0 then retry else 0)
            && (retry > 0 ==> g.attempts >= 1)
            && (g.body.Some? ==> !Raising(outcome(g.attempts - 1)) && g.body == AttemptBody(outcome(g.attempts - 1)))
            && (forall j :: 0 <= j < g.attempts - 1 ==> Raising(outcome(j)))
            && ((forall j :: 0 <= j < g.attempts ==> !SetsCookies(outcome(j))) ==> g.cookies == cookies)
            && (g.cookies == cookies ||
                exists j :: 0 <= j < g.attempts && SetsCookies(outcome(j)) && g.cookies == Some(CookieMap(outcome(j).reply.cookies)))
  {
    GetFromAnswer(outcome, 0, retry, cookies);
  }

  /** An `ok` reply without a page stores the cookies and raises: the next attempt is made with
    * those cookies, and a direct 200 there returns its page and keeps them. */
  lemma CookiesSurviveRaise(outcome: nat -> Attempt, retry: int, cookies: Option<map<string, string>>)
    requires retry >= 2 && outcome(0).Challenge? && outcome(0).reply.SolverOkNoResponse?
    requires outcome(1).Response? && outcome(1).status == 200
    ensures GetSpec(outcome, retry, cookies) ==
            GetResult(Some(outcome(1).body), Some(CookieMap(outcome(0).reply.cookies)), 2)
  {
    var after := Some(CookieMap(outcome(0).reply.cookies));
    assert GetFrom(outcome, 0, retry, cookies) == GetFrom(outcome, 1, retry, after);
  }

  /** A refused request is not retried: an answer of None ends the loop as a page does. */
  lemma AnswerEndsRetries(outcome: nat -> Attempt, retry: int, cookies: Option<map<string, string>>)
    requires retry >= 1 && !Raising(outcome(0))
    ensures GetSpec(outcome, retry, cookies).attempts == 1
    ensures GetSpec(outcome, retry, cookies).body == AttemptBody(outcome(0))
  {
  }

  /** The client with its session state: the cookies it sends, and the retry count and delay
    * of its configuration. */
  class Client {
    var cookies: Option<map<string, string>>
    const userAgent: string
    const retry: int
    const delay: int

    /** `Client(config)`: no cookies yet. */
    constructor (retry: int, delay: int)
      ensures cookies == None && userAgent == UserAgent
      ensures this.retry == retry && this.delay == delay
    {
      cookies := None;
      userAgent := UserAgent;
      this.retry := retry;
      this.delay := delay;
    }

    /** `_get`: one attempt. Reports whether it raised; otherwise its answer. */
    method TryGet(a: Attempt) returns (raised: bool, body: Option<string>)
      modifies this
      ensures raised == Raising(a)
      ensures !raised ==> body == AttemptBody(a)
      ensures cookies == AttemptCookies(a, old(cookies))
    {
      match a
      case Raises =>
        raised, body := true, None;
      case Response(status, text) =>
        raised := false;
        body := if status == 200 then Some(text) else None;
      case Challenge(reply) =>
        if reply.SolverRaises? {
          raised, body := true, None;
        } else if reply.SolverOkNoResponse? {
          cookies := Some(CookieMap(reply.cookies));
          raised, body := true, None;
        } else if reply.SolverOk? {
          cookies := Some(CookieMap(reply.cookies));
          raised, body := false, Some(reply.response);
        } else {
          raised, body := false, None;
        }
    }

    /** `get`: up to `retry` attempts; a raising attempt is followed by a sleep of `delay`
      * seconds (left out) and the next attempt. */
    method Get(outcome: nat -> Attempt) returns (body: Option<string>, attempts: nat)
      modifies this
      ensures GetResult(body, cookies, attempts) == GetSpec(outcome, retry, old(cookies))
    {
      var n := 0;
      while n < retry
        invariant 0 <= n && (retry > 0 ==> n <= retry)
        invariant GetFrom(outcome, n, retry, cookies) == GetSpec(outcome, retry, old(cookies))
        decreases retry - n
      {
        var raised, answer := TryGet(outcome(n));
        if !raised {
          return answer, n + 1;
        }
        n := n + 1;
      }
      body, attempts := None, if retry > 0 then retry else 0;
    }
  }

  /** The class attribute `_instance` that `get_instance` fills once. */
  class Registry {
    var instance: Option<Client>

    constructor ()
      ensures instance == None
    {
      instance := None;
    }

    /** The first call creates the client from its configuration; every later call returns that
      * same client, whatever configuration it is given. */
    method GetInstance(retry: int, delay: int) returns (c: Client)
      modifies this
      ensures old(instance).Some? ==> c == old(instance).value && instance == old(instance)
      ensures old(instance).None? ==> fresh(c) && c.cookies == None && c.retry == retry && c.delay == delay
      ensures instance == Some(c)
    {
      if instance.None? {
        var created := new Client(retry, delay);
        instance := Some(created);
      }
      c := instance.value;
    }
  }
}
