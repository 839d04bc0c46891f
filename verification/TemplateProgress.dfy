/** The faults of the template memory are served: what the handler's steps end in, alone and among other clients. */
module TemplateProgress {
  import opened Base
  import opened TemplateMemory

  // ---------------------------------------------------------------- write-protect faults

  function WpSteps(c: ClientId): seq<Step> {
    [TakeWp(c), WpUnprotect(c), WpRemap(c), WpFill(c), WpMarkPrivate(c), WpMarkDirty(c), WpWake(c)]
  }

  /** Client `cl` after the first `j` of those steps for its page `p`, which held `page`. */
  function WpClient(cl: Client, p: nat, page: Page, j: nat): Client
    requires p < |cl.mapping| == |cl.isPrivate| == |cl.dirty| == |cl.own|
  {
    var own, marked := cl.own[p := []], cl.isPrivate[p := true];
    match j
    case 0 => cl
    case 1 => cl.(handler := Snapped(p, page))
    case 2 => cl.(handler := Unprotected(p, page), mapping := cl.mapping[p := Shared(false)])
    case 3 => cl.(handler := Remapped(p, page), mapping := cl.mapping[p := Private(ZeroPage(|page|))], own := own)
    case 4 => cl.(handler := Filled(p), mapping := cl.mapping[p := Private(page)], own := own)
    case 5 => cl.(handler := MarkedPrivate(p), mapping := cl.mapping[p := Private(page)], own := own,
                  isPrivate := marked)
    case 6 =>
      cl.(handler := MarkedDirty(p), mapping := cl.mapping[p := Private(page)], own := own, isPrivate := marked,
          dirty := cl.dirty[p := true])
    case _ => WithCopy(cl, p, page)
  }

  /** The client with a private copy of its page, both marks set, and its application running again. */
  function WithCopy(cl: Client, p: nat, page: Page): Client
    requires p < |cl.mapping| == |cl.isPrivate| == |cl.dirty| == |cl.own|
  {
    cl.(mapping := cl.mapping[p := Private(page)], own := cl.own[p := []], isPrivate := cl.isPrivate[p := true],
        dirty := cl.dirty[p := true], app := Running, handler := Idle)
  }

  /** The write-protect fault of `c`, once `cl`, is `j` steps served. */
  ghost predicate InService(w: World, c: ClientId, cl: Client, p: nat, page: Page, j: nat) {
    && Sized(w) && p < Count(w.store) && ClientSized(cl, Count(w.store))
    && cl.app == Faulted(p, true) && cl.handler == Idle && w.store.memfd[p] == Some(page)
    && c in w.clients && w.clients[c] == WpClient(cl, p, page, j)
  }

  ghost predicate OnlyClient(w: World, v: World, c: ClientId) {
    v.store == w.store && v.clients.Keys == w.clients.Keys && forall d :: d in w.clients && d != c ==>
      v.clients[d] == w.clients[d]
  }

  lemma InvIsSized(w: World)
    requires Inv(w)
    ensures Sized(w)
  {
    forall c | c in w.clients
      ensures ClientSized(w.clients[c], Count(w.store))
    {
      assert ClientOk(w.store, c, w.clients[c]);
    }
  }

  /** In every sound state a write-protect fault finds its page loaded, shared and protected. */
  lemma WpFaultBegins(w: World, c: ClientId, p: nat)
    requires Inv(w) && c in w.clients && w.clients[c].app == Faulted(p, true) && w.clients[c].handler == Idle
    ensures p < Count(w.store) && |w.store.memfd| == |w.store.backend| && w.store.memfd[p].Some?
    ensures w.store.memfd[p] == w.store.backend[p]
    ensures InService(w, c, w.clients[c], p, w.store.memfd[p].value, 0)
  {
    InvIsSized(w);
    var cl := w.clients[c];
    assert ClientOk(w.store, c, cl);
    assert MappingOk(w.store, c, cl, p);
    assert PageOk(w.store, p);
  }

  /** The handler's next step is enabled, and takes the fault one further; nothing else changes. */
  lemma OwnStep(w: World, c: ClientId, cl: Client, p: nat, page: Page, j: nat)
    requires InService(w, c, cl, p, page, j) && j < 7
    ensures Enabled(w, WpSteps(c)[j]) && !Tampers(w, WpSteps(c)[j])
    ensures InService(Next(w, WpSteps(c)[j]), c, cl, p, page, j + 1) && OnlyClient(w, Next(w, WpSteps(c)[j]), c)
  {
    var v := Next(w, WpSteps(c)[j]);
    assert v == Update(w, c, v.clients[c]);
    assert v.clients[c] == WpClient(cl, p, page, j + 1);
  }

  lemma OtherStep(w: World, s: Step, c: ClientId, cl: Client, p: nat, page: Page, j: nat)
    requires Inv(w) && Enabled(w, s) && !Tampers(w, s) && s.c != c && InService(w, c, cl, p, page, j)
    ensures InService(Next(w, s), c, cl, p, page, j)
  {
    hide WpClient;
    StepKeepsInv(w, s);
    InvIsSized(Next(w, s));
    LoadingProtocol(w, s, p);
    BackendStays(w, s);
    OtherClientStays(w, s, c);
  }

  lemma OtherClientStays(w: World, s: Step, c: ClientId)
    requires Enabled(w, s) && s.c != c && c in w.clients
    ensures c in Next(w, s).clients && Next(w, s).clients[c] == w.clients[c]
  {
  }

  /** The steps of a run that client `c` takes. */
  function OwnSteps(steps: seq<Step>, c: ClientId): seq<Step> {
    if steps == [] then []
    else if steps[0].c == c then [steps[0]] + OwnSteps(steps[1..], c)
    else OwnSteps(steps[1..], c)
  }

  lemma {:induction false} ServiceAlong(w: World, steps: seq<Step>, c: ClientId, cl: Client, p: nat, page: Page, j: nat)
    requires Inv(w) && Runs(w, steps) && LoaderWritesOnly(w, steps) && j <= 7
    requires InService(w, c, cl, p, page, j) && OwnSteps(steps, c) == WpSteps(c)[j..]
    ensures InService(End(w, steps), c, cl, p, page, 7)
    decreases |steps|
  {
    hide Inv, InService, Enabled, Next, Tampers, WpClient;
    if steps == [] {
      assert |WpSteps(c)[j..]| == 7 - j;
    } else {
      var v := Next(w, steps[0]);
      StepKeepsInv(w, steps[0]);
      if steps[0].c == c {
        assert steps[0] == WpSteps(c)[j..][0] == WpSteps(c)[j];
        OwnStep(w, c, cl, p, page, j);
        assert OwnSteps(steps[1..], c) == OwnSteps(steps, c)[1..] == WpSteps(c)[j + 1..];
        ServiceAlong(v, steps[1..], c, cl, p, page, j + 1);
      } else {
        OtherStep(w, steps[0], c, cl, p, page, j);
        ServiceAlong(v, steps[1..], c, cl, p, page, j);
      }
    }
  }

  /**
    Whatever other clients do in between, as long as each page is changed by its loader alone: when the
    handler has taken its steps, the client has a private copy of the template's page and runs again.
   */
  lemma WriteFaultIsServed(w: World, steps: seq<Step>, c: ClientId, p: nat)
    requires Inv(w) && c in w.clients && w.clients[c].app == Faulted(p, true) && w.clients[c].handler == Idle
    requires Runs(w, steps) && LoaderWritesOnly(w, steps) && OwnSteps(steps, c) == WpSteps(c)
    ensures var cl, v := w.clients[c], End(w, steps);
            && p < |cl.mapping| == |cl.isPrivate| == |cl.dirty| == |cl.own| && p < |w.store.backend|
            && w.store.backend[p].Some? && c in v.clients && v.clients[c] == WithCopy(cl, p, w.store.backend[p].value)
  {
    WpFaultBegins(w, c, p);
    hide Inv, Runs, LoaderWritesOnly, End, WithCopy;
    var page := w.store.memfd[p].value;
    assert WpSteps(c)[0..] == WpSteps(c);
    ServiceAlong(w, steps, c, w.clients[c], p, page, 0);
  }

  /** The rest of the handler's steps run one after the other. */
  lemma {:induction false} StepsRun(w: World, c: ClientId, cl: Client, p: nat, page: Page, j: nat)
    requires Inv(w) && InService(w, c, cl, p, page, j) && j <= 7
    ensures Runs(w, WpSteps(c)[j..]) && LoaderWritesOnly(w, WpSteps(c)[j..])
    ensures InService(End(w, WpSteps(c)[j..]), c, cl, p, page, 7) && OnlyClient(w, End(w, WpSteps(c)[j..]), c)
    ensures Inv(End(w, WpSteps(c)[j..]))
    decreases 7 - j
  {
    hide Inv, InService, Enabled, Next, Tampers, WpClient;
    var rest := WpSteps(c)[j..];
    if j == 7 {
      assert rest == [];
    } else {
      assert rest[0] == WpSteps(c)[j] && rest[1..] == WpSteps(c)[j + 1..];
      OwnStep(w, c, cl, p, page, j);
      StepKeepsInv(w, rest[0]);
      StepsRun(Next(w, rest[0]), c, cl, p, page, j + 1);
    }
  }

  /** Nothing holds the handler up: from every sound state those steps are enabled in turn. */
  lemma WriteFaultCanBeServed(w: World, c: ClientId, p: nat)
    requires Inv(w) && c in w.clients && w.clients[c].app == Faulted(p, true) && w.clients[c].handler == Idle
    ensures Runs(w, WpSteps(c)) && LoaderWritesOnly(w, WpSteps(c)) && OnlyClient(w, End(w, WpSteps(c)), c)
    ensures Inv(End(w, WpSteps(c)))
    ensures var cl, v := w.clients[c], End(w, WpSteps(c));
            && p < |cl.mapping| == |cl.isPrivate| == |cl.dirty| == |cl.own| && p < |w.store.backend|
            && w.store.backend[p].Some? && c in v.clients && v.clients[c] == WithCopy(cl, p, w.store.backend[p].value)
  {
    WpFaultBegins(w, c, p);
    hide Inv, Runs, LoaderWritesOnly, End, WithCopy;
    assert WpSteps(c)[0..] == WpSteps(c);
    StepsRun(w, c, w.clients[c], p, w.store.memfd[p].value, 0);
  }

  /** The steps by which a client's first write to a page it loaded lands. */
  function FirstWriteSteps(c: ClientId, p: nat, at: nat, value: Byte): seq<Step> {
    [AppWrite(c, p, at, value)] + (WpSteps(c) + [AppWrite(c, p, at, value)])
  }

  /** A write to a protected page suspends the application and changes nothing else. */
  lemma WriteFaults(w: World, c: ClientId, p: nat, at: nat, value: Byte)
    requires Inv(w) && c in w.clients && w.clients[c].app == Running && p < Count(w.store)
    requires |w.store.memfd| == |w.clients[c].mapping| == Count(w.store)
    requires w.clients[c].mapping[p] == Shared(true) && w.store.backend[p].Some? && at < |w.store.backend[p].value|
    ensures Enabled(w, AppWrite(c, p, at, value)) && Inv(Next(w, AppWrite(c, p, at, value)))
    ensures Next(w, AppWrite(c, p, at, value)) == Update(w, c, w.clients[c].(app := Faulted(p, true)))
  {
    InvIsSized(w);
    assert ClientOk(w.store, c, w.clients[c]);
    assert MappingOk(w.store, c, w.clients[c], p);
    assert PageOk(w.store, p);
    StepKeepsInv(w, AppWrite(c, p, at, value));
  }

  /** A write to a private page lands there. */
  lemma PrivateWriteLands(w: World, c: ClientId, p: nat, at: nat, value: Byte, page: Page)
    requires Inv(w) && c in w.clients && w.clients[c].app == Running && p < Count(w.store)
    requires p < |w.clients[c].mapping| && w.clients[c].mapping[p] == Private(page) && at < |page|
    requires |w.store.memfd| == Count(w.store) && w.store.memfd[p] == Some(page)
    ensures Enabled(w, AppWrite(c, p, at, value))
    ensures var v := Next(w, AppWrite(c, p, at, value));
            && OnlyClient(w, v, c) && p < |v.clients[c].mapping| && View(v, c, p) == Some(page[at := value])
            && v.clients[c].app == Running && v.clients[c].handler == w.clients[c].handler
  {
    InvIsSized(w);
  }

  /** It faults, is served and lands: the client sees its byte on the template's page, and nobody else sees anything. */
  lemma FirstWriteLands(w: World, c: ClientId, p: nat, at: nat, value: Byte)
    requires Inv(w) && c in w.clients && w.clients[c].app == Running && w.clients[c].handler == Idle
    requires p < Count(w.store) && |w.store.memfd| == |w.clients[c].mapping| == Count(w.store)
    requires w.clients[c].mapping[p] == Shared(true) && w.store.backend[p].Some? && at < |w.store.backend[p].value|
    ensures Runs(w, FirstWriteSteps(c, p, at, value))
    ensures var v := End(w, FirstWriteSteps(c, p, at, value));
            && OnlyClient(w, v, c) && c in v.clients && p < |v.clients[c].mapping|
            && View(v, c, p) == Some(w.store.backend[p].value[at := value])
            && v.clients[c].app == Running && v.clients[c].handler == Idle
  {
    hide Inv, Enabled, Next, View, WithCopy;
    var s, page := AppWrite(c, p, at, value), w.store.backend[p].value;
    WriteFaults(w, c, p, at, value);
    var w1 := Next(w, s);
    WriteFaultCanBeServed(w1, c, p);
    var w2 := End(w1, WpSteps(c));
    CopyHas(w1.clients[c], p, page);
    LoadedPage(w, c, p);
    PrivateWriteLands(w2, c, p, at, value, page);
    OneMoreStep(w1, WpSteps(c), s);
    var all, rest := FirstWriteSteps(c, p, at, value), WpSteps(c) + [s];
    assert all[0] == s && all[1..] == rest;
    assert Runs(w, all) && End(w, all) == Next(w2, s);
  }

  lemma CopyHas(cl: Client, p: nat, page: Page)
    requires p < |cl.mapping| == |cl.isPrivate| == |cl.dirty| == |cl.own|
    ensures var copy := WithCopy(cl, p, page);
            p < |copy.mapping| && copy.mapping[p] == Private(page) && copy.app == Running && copy.handler == Idle
  {
  }

  lemma LoadedPage(w: World, c: ClientId, p: nat)
    requires Inv(w) && c in w.clients && p < Count(w.store) && p < |w.clients[c].mapping|
    requires w.clients[c].mapping[p] == Shared(true)
    ensures |w.store.memfd| == Count(w.store) && w.store.memfd[p] == w.store.backend[p]
  {
    assert ClientOk(w.store, c, w.clients[c]);
    assert MappingOk(w.store, c, w.clients[c], p);
    assert PageOk(w.store, p);
  }

  // ---------------------------------------------------------------- missing faults

  function LoadSteps(c: ClientId): seq<Step> {
    [TakeMissing(c), ReadBackend(c, true), CopyIn(c), MarkReady(c)]
  }

  /** The store with page `p` loaded by `c`. */
  function Loaded(s: Store, c: ClientId, p: nat): Store
    requires p < |s.backend| == |s.meta| == |s.memfd| == |s.loader| == |s.fetched|
  {
    s.(meta := s.meta[p := SharedReady], memfd := s.memfd[p := s.backend[p]], loader := s.loader[p := Some(c)],
       fetched := s.fetched[p := 1])
  }

  /** The first client to touch a readable page loads it, with its own mapping protected, and runs again. */
  lemma MissingFaultIsServed(w: World, c: ClientId, p: nat)
    requires Inv(w) && c in w.clients && w.clients[c].app == Faulted(p, false) && w.clients[c].handler == Idle
    requires p < Count(w.store) == |w.store.meta| && w.store.meta[p] == Unloaded && w.store.backend[p].Some?
    ensures Runs(w, LoadSteps(c))
    ensures var v, cl := End(w, LoadSteps(c)), w.clients[c];
            && |w.store.memfd| == |w.store.loader| == |w.store.fetched| == |cl.mapping| == Count(w.store)
            && v.store == Loaded(w.store, c, p)
            && v.clients == w.clients[c := cl.(app := Running, mapping := cl.mapping[p := Shared(true)])]
  {
    InvIsSized(w);
    assert PageOk(w.store, p);
    var cl, page := w.clients[c], w.store.backend[p].value;
    var w1 := Next(w, TakeMissing(c));
    assert w1 == World(w.store.(meta := w.store.meta[p := Loading], loader := w.store.loader[p := Some(c)]),
                       w.clients[c := cl.(handler := Claimed(p))]);
    var w2 := Next(w1, ReadBackend(c, true));
    assert w2 == World(w1.store.(fetched := w.store.fetched[p := 1]),
                       w.clients[c := cl.(handler := ReadDone(p, page))]);
    var w3 := Next(w2, CopyIn(c));
    var mapped := cl.(app := Running, mapping := cl.mapping[p := Shared(true)]);
    assert w3 == World(w2.store.(memfd := w.store.memfd[p := Some(page)]),
                       w.clients[c := mapped.(handler := Copied(p))]);
    var w4 := Next(w3, MarkReady(c));
    assert w4 == World(Loaded(w.store, c, p), w.clients[c := mapped]);
    FourSteps(w, w1, w2, w3, w4, LoadSteps(c));
  }

  lemma FourSteps(w: World, w1: World, w2: World, w3: World, w4: World, steps: seq<Step>)
    requires |steps| == 4 && Enabled(w, steps[0]) && w1 == Next(w, steps[0]) && Enabled(w1, steps[1])
    requires w2 == Next(w1, steps[1]) && Enabled(w2, steps[2]) && w3 == Next(w2, steps[2]) && Enabled(w3, steps[3])
    requires w4 == Next(w3, steps[3])
    ensures Runs(w, steps) && End(w, steps) == w4
  {
    hide Enabled, Next;
    var s1, s2, s3 := steps[1..], steps[2..], steps[3..];
    assert s1[1..] == s2 && s2[1..] == s3 && s3[1..] == [];
    assert s1[0] == steps[1] && s2[0] == steps[2] && s3[0] == steps[3];
    assert Runs(w4, []) && End(w4, []) == w4;
    assert Runs(w3, s3) && End(w3, s3) == w4;
    assert Runs(w2, s2) && End(w2, s2) == w4;
    assert Runs(w1, s1) && End(w1, s1) == w4;
  }

  /** A client that found the page being loaded waits, and once it is ready runs again and sees the template's page. */
  lemma WaiterIsReleased(w: World, d: ClientId, p: nat)
    requires Inv(w) && d in w.clients && p < Count(w.store) == |w.store.meta|
    requires w.clients[d].handler == Waiting(p) && w.clients[d].app == Faulted(p, false)
    ensures Enabled(w, SpinDone(d)) <==> w.store.meta[p] == SharedReady
    ensures w.store.meta[p] == SharedReady ==>
              var v := Next(w, SpinDone(d));
              && v == Update(w, d, w.clients[d].(handler := Idle, app := Running))
              && p < |v.clients[d].mapping| && p < |v.store.memfd| == |v.store.backend|
              && (w.clients[d].mapping[p].Shared? ==> View(v, d, p) == w.store.backend[p])
  {
    InvIsSized(w);
    assert PageOk(w.store, p);
  }

  /** One that faults on a page being loaded starts to wait; on a ready page it runs again at once. */
  lemma LateFault(w: World, d: ClientId, p: nat)
    requires Inv(w) && d in w.clients && p < Count(w.store) == |w.store.meta|
    requires w.clients[d].handler == Idle && w.clients[d].app == Faulted(p, false) && w.store.meta[p] != Unloaded
    ensures Enabled(w, TakeMissing(d))
    ensures Next(w, TakeMissing(d)) ==
              Update(w, d, if w.store.meta[p] == Loading then w.clients[d].(handler := Waiting(p))
                           else w.clients[d].(app := Running))
  {
    InvIsSized(w);
  }

  /** The step a busy handler takes next. */
  function NextOf(h: Handler, c: ClientId): Step
    requires !h.Idle? && !h.Waiting? && !h.Dead?
  {
    match h
    case Claimed(_) => ReadBackend(c, true)
    case ReadDone(_, _) => CopyIn(c)
    case Copied(_) => MarkReady(c)
    case Snapped(_, _) => WpUnprotect(c)
    case Unprotected(_, _) => WpRemap(c)
    case Remapped(_, _) => WpFill(c)
    case Filled(_) => WpMarkPrivate(c)
    case MarkedPrivate(_) => WpMarkDirty(c)
    case MarkedDirty(_) => WpWake(c)
  }

  /** A handler at work is never held up; one that waits is held up only by the page's loader. */
  lemma HandlerIsNotHeldUp(w: World, c: ClientId)
    requires Inv(w) && c in w.clients
    ensures var h := w.clients[c].handler;
            !h.Idle? && !h.Waiting? && !h.Dead? ==> Enabled(w, NextOf(h, c))
  {
    InvIsSized(w);
    assert ClientOk(w.store, c, w.clients[c]);
  }

  // ---------------------------------------------------------------- first touch

  /** Touching an unloaded page, by a read or by a write, suspends the application and changes nothing else. */
  lemma FirstTouchFaults(w: World, c: ClientId, p: nat, s: Step)
    requires Inv(w) && c in w.clients && w.clients[c].app == Running
    requires p < Count(w.store) == |w.store.meta| && w.store.meta[p] == Unloaded
    requires s == AppRead(c, p) || (s.AppWrite? && s.c == c && s.p == p)
    ensures Enabled(w, s) && Next(w, s) == Update(w, c, w.clients[c].(app := Faulted(p, false))) && Inv(Next(w, s))
  {
    InvIsSized(w);
    assert PageOk(w.store, p);
    assert ClientOk(w.store, c, w.clients[c]);
    assert MappingOk(w.store, c, w.clients[c], p);
    StepKeepsInv(w, s);
  }

  lemma {:induction false} RunsJoin(w: World, a: seq<Step>, b: seq<Step>)
    requires Runs(w, a) && Runs(End(w, a), b)
    ensures Runs(w, a + b) && End(w, a + b) == End(End(w, a), b)
    decreases |a|
  {
    hide Enabled, Next;
    if a == [] {
      assert a + b == b;
    } else {
      assert (a + b)[1..] == a[1..] + b;
      RunsJoin(Next(w, a[0]), a[1..], b);
    }
  }

  /** The steps by which a first write to a page nobody has loaded lands: load it, then make a private copy. */
  function FirstTouchSteps(c: ClientId, p: nat, at: nat, value: Byte): seq<Step> {
    [AppWrite(c, p, at, value)] + (LoadSteps(c) + FirstWriteSteps(c, p, at, value))
  }

  lemma FirstTouchLands(w: World, c: ClientId, p: nat, at: nat, value: Byte)
    requires Inv(w) && c in w.clients && w.clients[c].app == Running && w.clients[c].handler == Idle
    requires p < Count(w.store) == |w.store.meta| && w.store.meta[p] == Unloaded
    requires w.store.backend[p].Some? && at < |w.store.backend[p].value|
    ensures Runs(w, FirstTouchSteps(c, p, at, value))
    ensures var v := End(w, FirstTouchSteps(c, p, at, value));
            && |w.store.memfd| == |w.store.loader| == |w.store.fetched| == Count(w.store)
            && v.store == Loaded(w.store, c, p) && v.clients.Keys == w.clients.Keys
            && (forall d :: d in w.clients && d != c ==> v.clients[d] == w.clients[d])
            && p < |v.clients[c].mapping| && View(v, c, p) == Some(w.store.backend[p].value[at := value])
            && v.clients[c].app == Running && v.clients[c].handler == Idle
  {
    hide Inv, Enabled, Next, View, Runs, End;
    var s := AppWrite(c, p, at, value);
    FirstTouchFaults(w, c, p, s);
    OneRuns(w, s);
    var w1 := Next(w, s);
    MissingFaultIsServed(w1, c, p);
    var w2 := End(w1, LoadSteps(c));
    LoadKeepsInv(w1, c);
    FirstWriteLands(w2, c, p, at, value);
    RunsJoin(w1, LoadSteps(c), FirstWriteSteps(c, p, at, value));
    RunsJoin(w, [s], LoadSteps(c) + FirstWriteSteps(c, p, at, value));
  }

  lemma OneRuns(w: World, s: Step)
    requires Enabled(w, s)
    ensures Runs(w, [s]) && End(w, [s]) == Next(w, s)
  {
    hide Enabled, Next;
    assert [s][1..] == [];
    assert Runs(Next(w, s), []);
  }

  lemma LoadKeepsInv(w: World, c: ClientId)
    requires Inv(w) && Runs(w, LoadSteps(c))
    ensures Inv(End(w, LoadSteps(c)))
  {
    NoTampering(w, LoadSteps(c));
    InvAlong(w, LoadSteps(c));
  }

  lemma {:induction false} NoTampering(w: World, steps: seq<Step>)
    requires Runs(w, steps) && forall i :: 0 <= i < |steps| ==> !steps[i].AppWrite?
    ensures LoaderWritesOnly(w, steps)
    decreases |steps|
  {
    hide Enabled, Next;
    if steps != [] {
      NoTampering(Next(w, steps[0]), steps[1..]);
    }
  }

  /** The loader never finds its page there already: it copies in the backend's page. */
  lemma CopyFindsNoPage(w: World, c: ClientId)
    requires Inv(w) && Enabled(w, CopyIn(c))
    ensures var p := w.clients[c].handler.page;
            && |w.store.memfd| == |Next(w, CopyIn(c)).store.memfd| == Count(w.store) && w.store.memfd[p].None?
            && Next(w, CopyIn(c)).store.memfd[p] == w.store.backend[p] && w.store.backend[p].Some?
  {
    assert ClientOk(w.store, c, w.clients[c]);
  }

  // ---------------------------------------------------------------- failures

  /** The step reads page `p` from the backend, and the read succeeds. */
  ghost predicate Fetches(w: World, s: Step, p: nat)
    requires Enabled(w, s)
  {
    s.ReadBackend? && s.ok && w.clients[s.c].handler == Claimed(p)
  }

  ghost predicate EverFetched(w: World, steps: seq<Step>, p: nat)
    requires Runs(w, steps)
    decreases |steps|
  {
    steps != [] && (Fetches(w, steps[0], p) || EverFetched(Next(w, steps[0]), steps[1..], p))
  }

  /** No handler has page `p` in hand and the memfd does not hold it. */
  ghost predicate Nowhere(w: World, p: nat) {
    && p < |w.store.memfd| && w.store.memfd[p].None?
    && forall c :: c in w.clients && w.clients[c].handler.ReadDone? ==> w.clients[c].handler.page != p
  }

  lemma StaysNowhere(w: World, s: Step, p: nat)
    requires Enabled(w, s) && Nowhere(w, p) && !Fetches(w, s, p)
    ensures Nowhere(Next(w, s), p)
  {
  }

  lemma {:induction false} NowhereUnlessFetched(w: World, steps: seq<Step>, p: nat)
    requires Runs(w, steps) && Nowhere(w, p) && !EverFetched(w, steps, p)
    ensures Nowhere(End(w, steps), p)
    decreases |steps|
  {
    if steps != [] {
      StaysNowhere(w, steps[0], p);
      hide Enabled, Next, Nowhere, Fetches;
      NowhereUnlessFetched(Next(w, steps[0]), steps[1..], p);
    }
  }

  /** A page gets into the memfd by a successful read of that page alone, whatever the clients do. */
  lemma LoadedOnlyByARead(backend: seq<Option<Page>>, steps: seq<Step>, p: nat)
    requires Runs(Empty(backend), steps) && p < |backend|
    ensures var s := End(Empty(backend), steps).store;
            p < |s.memfd| && s.memfd[p].Some? ==> EverFetched(Empty(backend), steps, p)
  {
    if !EverFetched(Empty(backend), steps, p) {
      NowhereUnlessFetched(Empty(backend), steps, p);
    }
  }

  /** The loader of page `p` is dead and left it half loaded. */
  ghost predicate Orphaned(w: World, c: ClientId, p: nat) {
    && c in w.clients && w.clients[c].handler == Dead && p < Count(w.store)
    && |w.store.meta| == |w.store.loader| == |w.store.memfd| == Count(w.store)
    && w.store.loader[p] == Some(c) && w.store.meta[p] == Loading && w.store.memfd[p] == None
  }

  lemma OrphanStays(w: World, s: Step, c: ClientId, p: nat)
    requires Inv(w) && Enabled(w, s) && !Tampers(w, s) && Orphaned(w, c, p)
    ensures Orphaned(Next(w, s), c, p)
  {
    StepKeepsInv(w, s);
    LoadingProtocol(w, s, p);
    BackendStays(w, s);
    if s.c in w.clients {
      assert ClientOk(w.store, s.c, w.clients[s.c]);
    }
  }

  lemma WaiterStays(w: World, s: Step, c: ClientId, p: nat, d: ClientId)
    requires Enabled(w, s) && Orphaned(w, c, p) && d in w.clients && !w.clients[d].app.Running?
    requires w.clients[d].handler == Waiting(p) || w.clients[d].handler == Dead
    ensures var v := Next(w, s);
            && d in v.clients && v.clients[d].app == w.clients[d].app
            && (v.clients[d].handler == Waiting(p) || v.clients[d].handler == Dead)
  {
  }

  lemma {:induction false} OrphanAlong(w: World, steps: seq<Step>, c: ClientId, p: nat, d: ClientId)
    requires Inv(w) && Runs(w, steps) && LoaderWritesOnly(w, steps) && Orphaned(w, c, p)
    requires d in w.clients && !w.clients[d].app.Running?
    requires w.clients[d].handler == Waiting(p) || w.clients[d].handler == Dead
    ensures var v := End(w, steps);
            && Orphaned(v, c, p) && d in v.clients && v.clients[d].app == w.clients[d].app
            && (v.clients[d].handler == Waiting(p) || v.clients[d].handler == Dead)
    decreases |steps|
  {
    if steps != [] {
      hide Inv, Enabled, Next, Tampers, Orphaned;
      StepKeepsInv(w, steps[0]);
      OrphanStays(w, steps[0], c, p);
      WaiterStays(w, steps[0], c, p, d);
      OrphanAlong(Next(w, steps[0]), steps[1..], c, p, d);
    }
  }

  /**
    When a handler fails between claiming a page and copying it in, by dying, by a failed read or because
    the page cannot be read, that page is never loaded and whoever waits for it waits for ever.
   */
  lemma DeadLoaderHoldsPage(w: World, s: Step, steps: seq<Step>, c: ClientId, p: nat, d: ClientId)
    requires Inv(w) && Enabled(w, s) && p < Count(w.store)
    requires s == Die(c) || s == ReadBackend(c, false) || (s == ReadBackend(c, true) && w.store.backend[p].None?)
    requires w.clients[c].handler.Claimed? || w.clients[c].handler.ReadDone?
    requires w.clients[c].handler.page == p && Runs(Next(w, s), steps) && LoaderWritesOnly(Next(w, s), steps)
    requires d in w.clients && w.clients[d].handler == Waiting(p) && w.clients[d].app == Faulted(p, false)
    ensures var v := End(Next(w, s), steps);
            && Orphaned(v, c, p) && d in v.clients && v.clients[d].app == Faulted(p, false)
            && !Enabled(v, SpinDone(d))
  {
    StepKeepsInv(w, s);
    assert ClientOk(w.store, c, w.clients[c]);
    assert Orphaned(Next(w, s), c, p);
    hide Inv, Runs, LoaderWritesOnly, End;
    OrphanAlong(Next(w, s), steps, c, p, d);
  }

  /** A run after which the first of two clients has failed to read the page and the second waits for it. */
  ghost predicate Strands(a: Byte, steps: seq<Step>) {
    && Runs(Empty([Some([a])]), steps)
    && var w := End(Empty([Some([a])]), steps);
       && Orphaned(w, 1, 0) && 2 in w.clients
       && w.clients[2].handler == Waiting(0) && w.clients[2].app == Faulted(0, false)
  }

  lemma FailedReadStrands(a: Byte)
    ensures exists steps :: Strands(a, steps)
  {
    var w0 := Empty([Some([a])]);
    var before, w := WaitBySecond(a);
    OneMoreStep(w0, before, ReadBackend(1, false));
    var steps := before + [ReadBackend(1, false)];
    hide Runs, End;
    assert Strands(a, steps);
  }

  /** Two clients of a one-page template; the first has claimed the page, the second waits for it. */
  lemma WaitBySecond(a: Byte) returns (steps: seq<Step>, w: World)
    ensures Runs(Empty([Some([a])]), steps) && End(Empty([Some([a])]), steps) == w
    ensures w.store == Store([Some([a])], [Loading], [None], [Some(1)], [0])
    ensures w.clients == map[1 := Fresh(1).(app := Faulted(0, false), handler := Claimed(0)),
                             2 := Fresh(1).(app := Faulted(0, false), handler := Waiting(0))]
  {
    var w0 := Empty([Some([a])]);
    steps, w := TouchByFirst(a);
    OneMoreStep(w0, steps, TakeMissing(1));
    hide Runs, End;
    steps, w := steps + [TakeMissing(1)], Next(w, TakeMissing(1));
    assert w.store == Store([Some([a])], [Loading], [None], [Some(1)], [0]);
    OneMoreStep(w0, steps, AppRead(2, 0));
    steps, w := steps + [AppRead(2, 0)], Next(w, AppRead(2, 0));
    OneMoreStep(w0, steps, TakeMissing(2));
    steps, w := steps + [TakeMissing(2)], Next(w, TakeMissing(2));
  }

  /** The handler is loading page `p`. */
  predicate Loads(h: Handler, p: nat) {
    (h.Claimed? || h.ReadDone? || h.Copied?) && h.page == p
  }

  /** Every page in state loading has a loader, at work on it or dead before it copied the page in. */
  ghost predicate Tended(w: World) {
    && |w.store.meta| == |w.store.loader| == |w.store.memfd|
    && forall p :: 0 <= p < |w.store.meta| && w.store.meta[p] == Loading ==> TendedAt(w, p)
  }

  ghost predicate TendedAt(w: World, p: nat)
    requires p < |w.store.loader| == |w.store.memfd|
  {
    && w.store.loader[p].Some? && w.store.loader[p].value in w.clients
    && var h := w.clients[w.store.loader[p].value].handler;
       Loads(h, p) || (h == Dead && w.store.memfd[p] == None)
  }

  /** A step of the loader itself takes the loading on, or ends it. */
  lemma LoaderStep(w: World, s: Step, p: nat)
    requires Inv(w) && Enabled(w, s) && s.c in w.clients && Loads(w.clients[s.c].handler, p)
    requires p < |w.store.memfd| == |Next(w, s).store.memfd|
    ensures s.c in Next(w, s).clients
    ensures var h := Next(w, s).clients[s.c].handler;
            Loads(h, p) || (h == Dead && Next(w, s).store.memfd[p] == None) || s.MarkReady?
  {
    assert ClientOk(w.store, s.c, w.clients[s.c]);
  }

  lemma ClaimStep(w: World, s: Step, p: nat)
    requires Enabled(w, s) && s.TakeMissing? && p < |w.store.meta| == |Next(w, s).store.meta|
    requires w.store.meta[p] == Unloaded && Next(w, s).store.meta[p] == Loading
    ensures s.c in Next(w, s).clients && Loads(Next(w, s).clients[s.c].handler, p)
  {
  }

  lemma MarkStep(w: World, s: Step, p: nat)
    requires Enabled(w, s) && s.MarkReady? && Loads(w.clients[s.c].handler, p)
    ensures p < |Next(w, s).store.meta| && Next(w, s).store.meta[p] == SharedReady
  {
  }

  lemma TendedStaysAt(w: World, s: Step, p: nat)
    requires Inv(w) && Tended(w) && Enabled(w, s) && !Tampers(w, s) && p < Count(w.store)
    requires |Next(w, s).store.meta| == |Next(w, s).store.loader| == |Next(w, s).store.memfd| == Count(w.store)
    requires Next(w, s).store.meta[p] == Loading
    ensures TendedAt(Next(w, s), p)
  {
    LoadingIsCounted(w);
    LoadingProtocol(w, s, p);
    hide Inv, Enabled, Next, Tampers, Loads;
    if w.store.meta[p] == Loading {
      assert TendedAt(w, p);
      var c := w.store.loader[p].value;
      if w.clients[c].handler == Dead {
        OrphanStays(w, s, c, p);
      } else if s.c != c {
        OtherClientStays(w, s, c);
      } else {
        LoaderStep(w, s, p);
        if s.MarkReady? {
          MarkStep(w, s, p);
        }
      }
    } else {
      ClaimStep(w, s, p);
    }
  }

  lemma TendedStays(w: World, s: Step)
    requires Inv(w) && Tended(w) && Enabled(w, s) && !Tampers(w, s)
    ensures Tended(Next(w, s))
  {
    StepKeepsInv(w, s);
    BackendStays(w, s);
    forall p | 0 <= p < |Next(w, s).store.meta| && Next(w, s).store.meta[p] == Loading
      ensures TendedAt(Next(w, s), p)
    {
      TendedStaysAt(w, s, p);
    }
  }

  lemma {:induction false} TendedAlong(w: World, steps: seq<Step>)
    requires Inv(w) && Tended(w) && Runs(w, steps) && LoaderWritesOnly(w, steps)
    ensures Tended(End(w, steps))
    decreases |steps|
  {
    if steps != [] {
      hide Inv, Enabled, Next, Tampers, Tended;
      StepKeepsInv(w, steps[0]);
      TendedStays(w, steps[0]);
      TendedAlong(Next(w, steps[0]), steps[1..]);
    }
  }

  /** The steps that finish the loading. */
  function Rest(h: Handler, c: ClientId): seq<Step> {
    if h.Claimed? then [ReadBackend(c, true), CopyIn(c), MarkReady(c)]
    else if h.ReadDone? then [CopyIn(c), MarkReady(c)]
    else [MarkReady(c)]
  }

  lemma RestStep(w: World, c: ClientId, p: nat)
    requires Inv(w) && c in w.clients && Loads(w.clients[c].handler, p) && p < Count(w.store)
    requires w.store.backend[p].Some?
    ensures var s := NextOf(w.clients[c].handler, c);
            && Enabled(w, s) && !Tampers(w, s) && Inv(Next(w, s))
            && p < |Next(w, s).store.backend| && Next(w, s).store.backend[p].Some?
            && (s.MarkReady? ==> p < |Next(w, s).store.meta| && Next(w, s).store.meta[p] == SharedReady)
            && (!s.MarkReady? ==>
                  && c in Next(w, s).clients && Loads(Next(w, s).clients[c].handler, p)
                  && Rest(Next(w, s).clients[c].handler, c) == Rest(w.clients[c].handler, c)[1..])
  {
    var s := NextOf(w.clients[c].handler, c);
    HandlerIsNotHeldUp(w, c);
    StepKeepsInv(w, s);
    BackendStays(w, s);
  }

  lemma {:induction false} RestLoads(w: World, c: ClientId, p: nat)
    requires Inv(w) && c in w.clients && Loads(w.clients[c].handler, p) && p < Count(w.store)
    requires w.store.backend[p].Some?
    ensures Runs(w, Rest(w.clients[c].handler, c)) && LoaderWritesOnly(w, Rest(w.clients[c].handler, c))
    ensures var t := End(w, Rest(w.clients[c].handler, c)).store; p < |t.meta| && t.meta[p] == SharedReady
    decreases |Rest(w.clients[c].handler, c)|
  {
    var steps := Rest(w.clients[c].handler, c);
    RestStep(w, c, p);
    hide Inv, Enabled, Next, Tampers;
    assert steps[0] == NextOf(w.clients[c].handler, c);
    if |steps| > 1 {
      RestLoads(Next(w, steps[0]), c, p);
    } else {
      assert steps[1..] == [];
      assert Runs(Next(w, steps[0]), []);
    }
  }

  /** A continuation of the run by which page `p` becomes ready. */
  ghost predicate Readies(w: World, steps: seq<Step>, p: nat) {
    && Runs(w, steps) && LoaderWritesOnly(w, steps)
    && p < |End(w, steps).store.meta| && End(w, steps).store.meta[p] == SharedReady
  }

  /** At any point of a run a readable page that is being loaded can become ready if and only if its loader lives. */
  lemma CanBeLoadedIff(backend: seq<Option<Page>>, before: seq<Step>, p: nat)
    requires Runs(Empty(backend), before) && LoaderWritesOnly(Empty(backend), before)
    requires p < |backend| && backend[p].Some?
    requires p < |End(Empty(backend), before).store.meta| && End(Empty(backend), before).store.meta[p] == Loading
    ensures var w := End(Empty(backend), before);
            && p < |w.store.loader| && w.store.loader[p].Some? && w.store.loader[p].value in w.clients
            && ((exists steps :: Readies(w, steps, p)) <==> w.clients[w.store.loader[p].value].handler != Dead)
  {
    var w := End(Empty(backend), before);
    PoliteRunIsSound(backend, before);
    TendedAlong(Empty(backend), before);
    hide Runs, LoaderWritesOnly, End, Inv;
    assert TendedAt(w, p);
    var c := w.store.loader[p].value;
    if w.clients[c].handler == Dead {
      forall steps
        ensures !Readies(w, steps, p)
      {
        if Readies(w, steps, p) {
          LoadingIsCounted(w);
          OrphanAlone(w, steps, c, p);
        }
      }
    } else {
      RestLoads(w, c, p);
      assert Readies(w, Rest(w.clients[c].handler, c), p);
    }
  }

  lemma LoadingIsCounted(w: World)
    requires Inv(w)
    ensures |w.store.meta| == |w.store.loader| == |w.store.memfd| == Count(w.store)
  {
  }

  lemma {:induction false} OrphanAlone(w: World, steps: seq<Step>, c: ClientId, p: nat)
    requires Inv(w) && Runs(w, steps) && LoaderWritesOnly(w, steps) && Orphaned(w, c, p)
    ensures Orphaned(End(w, steps), c, p)
    decreases |steps|
  {
    if steps != [] {
      hide Inv, Enabled, Next, Tampers, Orphaned;
      StepKeepsInv(w, steps[0]);
      OrphanStays(w, steps[0], c, p);
      OrphanAlone(Next(w, steps[0]), steps[1..], c, p);
    }
  }
}
