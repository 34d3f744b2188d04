/**
 A session's stream on values: one reordering list for every endpoint, created on
 first use, all handing over to one receiver. Lists of different endpoints do not
 influence each other.
 */
module Streams {
  import opened Bytes
  import opened Reorder
  import opened Delivery

  datatype Stream = Stream(lists: map<u64, List>, sent: seq<Message>)

  function ListOf(lists: map<u64, List>, endpoint: u64): List {
    if endpoint in lists then lists[endpoint] else EMPTY
  }

  ghost function StreamStep(cfg: Config, st: Stream, a: Arrival): Stream {
    var r := Step(BySession, cfg, ListOf(st.lists, a.msg.endpoint), a);
    Stream(st.lists[a.msg.endpoint := r.list], st.sent + r.sent)
  }

  ghost function StreamRun(cfg: Config, arrivals: seq<Arrival>): Stream {
    if arrivals == [] then Stream(map[], []) else StreamStep(cfg, StreamRun(cfg, Front(arrivals)), Last(arrivals))
  }

  /** The arrivals of one endpoint. */
  function Only(arrivals: seq<Arrival>, endpoint: u64): seq<Arrival> {
    if arrivals == [] then []
    else Only(Front(arrivals), endpoint) + (if Last(arrivals).msg.endpoint == endpoint then [Last(arrivals)] else [])
  }

  /** The messages of one endpoint. */
  function OnlySent(sent: seq<Message>, endpoint: u64): seq<Message> {
    if sent == [] then []
    else OnlySent(Front(sent), endpoint) + (if Last(sent).endpoint == endpoint then [Last(sent)] else [])
  }

  lemma {:induction false} OnlySentConcat(a: seq<Message>, b: seq<Message>, endpoint: u64)
    ensures OnlySent(a + b, endpoint) == OnlySent(a, endpoint) + OnlySent(b, endpoint)
  {
    if b == [] {
      assert a + b == a;
    } else {
      assert Front(a + b) == a + Front(b);
      OnlySentConcat(a, Front(b), endpoint);
    }
  }

  lemma {:induction false} OnlySentOfOne(sent: seq<Message>, owner: u64, endpoint: u64)
    requires forall m :: m in sent ==> m.endpoint == owner
    ensures OnlySent(sent, endpoint) == if owner == endpoint then sent else []
  {
    if sent != [] {
      assert Last(sent) in sent;
      assert sent == Front(sent) + [Last(sent)];
      OnlySentOfOne(Front(sent), owner, endpoint);
    }
  }

  lemma {:induction false} OnlyIsSubset(arrivals: seq<Arrival>, endpoint: u64)
    ensures forall a :: a in Only(arrivals, endpoint) <==> a in arrivals && a.msg.endpoint == endpoint
  {
    if arrivals != [] {
      OnlyIsSubset(Front(arrivals), endpoint);
      assert arrivals == Front(arrivals) + [Last(arrivals)];
    }
  }

  /** What the stream must look like from one endpoint: a lone list fed that endpoint's arrivals. */
  ghost predicate LooksAlone(cfg: Config, arrivals: seq<Arrival>, endpoint: u64) {
    var st, alone := StreamRun(cfg, arrivals), Run(BySession, cfg, Only(arrivals, endpoint));
    ListOf(st.lists, endpoint) == alone.list && OnlySent(st.sent, endpoint) == alone.sent
  }

  lemma StepStaysInEndpoint(cfg: Config, arrivals: seq<Arrival>, a: Arrival)
    ensures var s := Run(BySession, cfg, Only(arrivals, a.msg.endpoint)).list;
      forall m :: m in Step(BySession, cfg, s, a).sent ==> m.endpoint == a.msg.endpoint
  {
    var mine := Only(arrivals, a.msg.endpoint);
    var s := Run(BySession, cfg, mine).list;
    NothingIsInvented(BySession, cfg, mine);
    OnlyIsSubset(arrivals, a.msg.endpoint);
    StepConserves(BySession, cfg, s, a);
    var step := Step(BySession, cfg, s, a);
    forall m | m in step.sent ensures m.endpoint == a.msg.endpoint {
      assert m in multiset(step.sent) + multiset(step.list.waiting);
      if m in s.waiting {
        assert Arrived(mine, m);
      } else {
        assert m == a.msg;
      }
    }
  }

  lemma RunAppend(v: Variant, cfg: Config, arrivals: seq<Arrival>, a: Arrival)
    ensures var before := Run(v, cfg, arrivals);
      var step := Step(v, cfg, before.list, a);
      Run(v, cfg, arrivals + [a]) == Outcome(step.list, before.sent + step.sent)
  {
    assert Front(arrivals + [a]) == arrivals;
  }

  /** Non-interference: for every interleaving and every sequence of clock readings,
      flushes included, the output of one endpoint is that of a list of its own. */
  lemma {:induction false} EndpointsDoNotInterfere(cfg: Config, arrivals: seq<Arrival>, endpoint: u64)
    ensures LooksAlone(cfg, arrivals, endpoint)
  {
    if arrivals != [] {
      var before, a := Front(arrivals), Last(arrivals);
      var owner := a.msg.endpoint;
      EndpointsDoNotInterfere(cfg, before, endpoint);
      EndpointsDoNotInterfere(cfg, before, owner);
      StepStaysInEndpoint(cfg, before, a);
      RunAppend(BySession, cfg, Only(before, endpoint), a);
      var st := StreamRun(cfg, before);
      var r := Step(BySession, cfg, ListOf(st.lists, owner), a);
      OnlySentConcat(st.sent, r.sent, endpoint);
      OnlySentOfOne(r.sent, owner, endpoint);
      assert OnlySent(st.sent, endpoint) + [] == OnlySent(st.sent, endpoint);
      assert Only(before, endpoint) + [] == Only(before, endpoint);
    }
  }
}
