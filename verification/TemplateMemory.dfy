/**
  Template memory with copy-on-write: clients share one memfd, load its pages on first touch through
  userfaultfd, and replace a write-protected page with a private copy on first write. Every step below
  is one atomic operation or system call of a handler thread, or one access of an application thread.
 */
module TemplateMemory {
  import opened Base

  type Page = seq<Byte>
  type ClientId = int

  datatype PageState = Unloaded | Loading | SharedReady

  /**
    How a client's address space maps a page: still the memfd, with or without userfaultfd write
    protection in its own page table, or a private anonymous page.
   */
  datatype Mapping = Shared(wp: bool) | Private(data: Page)

  /** The application thread runs, or waits in a missing or a write-protect fault. */
  datatype App = Running | Faulted(page: nat, wp: bool)

  /** Where the fault handler thread stands; Dead after it returned an error. */
  datatype Handler =
    | Idle
    | Claimed(page: nat)
    | ReadDone(page: nat, data: Page)
    | Copied(page: nat)
    | Waiting(page: nat)
    | Snapped(page: nat, data: Page)
    | Unprotected(page: nat, data: Page)
    | Remapped(page: nat, data: Page)
    | Filled(page: nat)
    | MarkedPrivate(page: nat)
    | MarkedDirty(page: nat)
    | Dead

  datatype Write = Write(at: nat, value: Byte)

  /** `own[p]` records the client's writes to its private page `p`. */
  datatype Client = Client(
    mapping: seq<Mapping>, isPrivate: seq<bool>, dirty: seq<bool>, app: App, handler: Handler, own: seq<seq<Write>>)

  /** The shared memory: the backend's pages (None where unreadable), page states, the memfd, and who loads what. */
  datatype Store = Store(
    backend: seq<Option<Page>>, meta: seq<PageState>, memfd: seq<Option<Page>>, loader: seq<Option<ClientId>>,
    fetched: seq<nat>)

  datatype World = World(store: Store, clients: map<ClientId, Client>)

  datatype Step =
    | Attach(c: ClientId)
    | AppRead(c: ClientId, p: nat)
    | AppWrite(c: ClientId, p: nat, at: nat, value: Byte)
    | TakeMissing(c: ClientId)
    | ReadBackend(c: ClientId, ok: bool)
    | CopyIn(c: ClientId)
    | MarkReady(c: ClientId)
    | SpinDone(c: ClientId)
    | TakeWp(c: ClientId)
    | WpUnprotect(c: ClientId)
    | WpRemap(c: ClientId)
    | WpFill(c: ClientId)
    | WpMarkPrivate(c: ClientId)
    | WpMarkDirty(c: ClientId)
    | WpWake(c: ClientId)
    | Die(c: ClientId)

  function Count(s: Store): nat {
    |s.backend|
  }

  function ZeroPage(n: nat): Page {
    seq(n, i => 0)
  }

  function Fresh(n: nat): Client {
    Client(seq(n, i => Shared(false)), seq(n, i => false), seq(n, i => false), Running, Idle, seq(n, i => []))
  }

  function Empty(backend: seq<Option<Page>>): World {
    var n := |backend|;
    World(Store(backend, seq(n, i => Unloaded), seq(n, i => None), seq(n, i => None), seq(n, i => 0)), map[])
  }

  // ---------------------------------------------------------------- steps

  ghost predicate Sized(w: World) {
    var n := Count(w.store);
    && |w.store.meta| == |w.store.memfd| == |w.store.loader| == |w.store.fetched| == n
    && forall c :: c in w.clients ==> ClientSized(w.clients[c], n)
  }

  ghost predicate ClientSized(cl: Client, n: nat) {
    |cl.mapping| == |cl.isPrivate| == |cl.dirty| == |cl.own| == n
  }

  ghost predicate Enabled(w: World, s: Step) {
    && Sized(w)
    && (s.Attach? <==> s.c !in w.clients)
    && (s.Attach? ||
        var cl := w.clients[s.c];
        var h := cl.handler;
        match s
        case AppRead(_, p) => cl.app.Running? && p < Count(w.store)
        case AppWrite(_, p, at, _) =>
          && cl.app.Running? && p < Count(w.store)
          && (cl.mapping[p].Private? ==> at < |cl.mapping[p].data|)
          && (w.store.memfd[p].Some? ==> at < |w.store.memfd[p].value|)
        case TakeMissing(_) => h.Idle? && cl.app.Faulted? && !cl.app.wp && cl.app.page < Count(w.store)
        case ReadBackend(_, _) => h.Claimed? && h.page < Count(w.store)
        case CopyIn(_) => h.ReadDone? && h.page < Count(w.store)
        case MarkReady(_) => h.Copied? && h.page < Count(w.store)
        case SpinDone(_) => h.Waiting? && h.page < Count(w.store) && w.store.meta[h.page].SharedReady?
        case TakeWp(_) =>
          && h.Idle? && cl.app.Faulted? && cl.app.wp && cl.app.page < Count(w.store)
          && w.store.memfd[cl.app.page].Some?
        case WpUnprotect(_) => h.Snapped? && h.page < Count(w.store)
        case WpRemap(_) => h.Unprotected? && h.page < Count(w.store)
        case WpFill(_) => h.Remapped? && h.page < Count(w.store)
        case WpMarkPrivate(_) => h.Filled? && h.page < Count(w.store)
        case WpMarkDirty(_) => h.MarkedPrivate? && h.page < Count(w.store)
        case WpWake(_) => h.MarkedDirty?
        case Die(_) =>
          h.Idle? || h.Claimed? || h.ReadDone? || h.Waiting? || h.Snapped? || h.Unprotected? || h.MarkedDirty?)
  }

  function Update(w: World, c: ClientId, cl: Client): World {
    w.(clients := w.clients[c := cl])
  }

  /** An access of the application thread: the kernel resolves it, or suspends the thread. */
  function WriteStep(w: World, c: ClientId, p: nat, at: nat, value: Byte): World
    requires c in w.clients && p < |w.clients[c].mapping| && p < |w.store.memfd| && p < |w.clients[c].own|
    requires w.clients[c].mapping[p].Private? ==> at < |w.clients[c].mapping[p].data|
    requires w.store.memfd[p].Some? ==> at < |w.store.memfd[p].value|
  {
    var cl := w.clients[c];
    match cl.mapping[p]
    case Private(data) =>
      Update(w, c, cl.(mapping := cl.mapping[p := Private(data[at := value])],
                       own := cl.own[p := cl.own[p] + [Write(at, value)]]))
    case Shared(wp) =>
      if w.store.memfd[p].None? then Update(w, c, cl.(app := Faulted(p, false)))
      else if wp then Update(w, c, cl.(app := Faulted(p, true)))
      else w.(store := w.store.(memfd := w.store.memfd[p := Some(w.store.memfd[p].value[at := value])]))
  }

  /** handle_missing_fault up to the result of the compare-and-swap. */
  function TakeMissingStep(w: World, c: ClientId): World
    requires c in w.clients && w.clients[c].app.Faulted? && w.clients[c].app.page < |w.store.meta|
    requires |w.store.loader| == |w.store.meta|
  {
    var cl := w.clients[c];
    var p := cl.app.page;
    match w.store.meta[p]
    case Unloaded =>
      World(w.store.(meta := w.store.meta[p := Loading], loader := w.store.loader[p := Some(c)]),
            w.clients[c := cl.(handler := Claimed(p))])
    case Loading => Update(w, c, cl.(handler := Waiting(p)))
    case SharedReady => Update(w, c, cl.(app := Running))
  }

  function ReadStep(w: World, c: ClientId, ok: bool): World
    requires c in w.clients && w.clients[c].handler.Claimed? && w.clients[c].handler.page < |w.store.backend|
    requires |w.store.fetched| == |w.store.backend|
  {
    var cl := w.clients[c];
    var p := cl.handler.page;
    World(w.store.(fetched := w.store.fetched[p := w.store.fetched[p] + 1]),
          w.clients[c := cl.(handler := if ok && w.store.backend[p].Some? then ReadDone(p, w.store.backend[p].value)
                             else Dead)])
  }

  /** UFFDIO_COPY with write protection; a page already present gives EEXIST and a plain wake. */
  function CopyStep(w: World, c: ClientId): World
    requires c in w.clients && w.clients[c].handler.ReadDone? && w.clients[c].handler.page < |w.store.memfd|
    requires |w.clients[c].mapping| == |w.store.memfd|
  {
    var cl := w.clients[c];
    var p := cl.handler.page;
    var woken := cl.(handler := Copied(p), app := if cl.app == Faulted(p, false) then Running else cl.app);
    if w.store.memfd[p].None? then
      World(w.store.(memfd := w.store.memfd[p := Some(cl.handler.data)]),
            w.clients[c := woken.(mapping := cl.mapping[p := Shared(true)])])
    else Update(w, c, woken)
  }

  ghost function Next(w: World, s: Step): World
    requires Enabled(w, s)
  {
    if s.Attach? then Update(w, s.c, Fresh(Count(w.store)))
    else
      var cl := w.clients[s.c];
      var h := cl.handler;
      match s
      case AppRead(c, p) =>
        if cl.mapping[p].Shared? && w.store.memfd[p].None? then Update(w, c, cl.(app := Faulted(p, false))) else w
      case AppWrite(c, p, at, value) => WriteStep(w, c, p, at, value)
      case TakeMissing(c) => TakeMissingStep(w, c)
      case ReadBackend(c, ok) => ReadStep(w, c, ok)
      case CopyIn(c) => CopyStep(w, c)
      case MarkReady(c) =>
        World(w.store.(meta := w.store.meta[h.page := SharedReady]), w.clients[c := cl.(handler := Idle)])
      case SpinDone(c) =>
        Update(w, c, cl.(handler := Idle, app := if cl.app == Faulted(h.page, false) then Running else cl.app))
      case TakeWp(c) => Update(w, c, cl.(handler := Snapped(cl.app.page, w.store.memfd[cl.app.page].value)))
      case WpUnprotect(c) =>
        Update(w, c, cl.(handler := Unprotected(h.page, h.data), mapping := cl.mapping[h.page := Shared(false)]))
      case WpRemap(c) =>
        Update(w, c, cl.(handler := Remapped(h.page, h.data),
                         mapping := cl.mapping[h.page := Private(ZeroPage(|h.data|))],
                         own := cl.own[h.page := []]))
      case WpFill(c) => Update(w, c, cl.(handler := Filled(h.page), mapping := cl.mapping[h.page := Private(h.data)]))
      case WpMarkPrivate(c) =>
        Update(w, c, cl.(handler := MarkedPrivate(h.page), isPrivate := cl.isPrivate[h.page := true]))
      case WpMarkDirty(c) => Update(w, c, cl.(handler := MarkedDirty(h.page), dirty := cl.dirty[h.page := true]))
      case WpWake(c) => Update(w, c,
                               cl.(handler := Idle, app := if cl.app == Faulted(h.page, true) then Running else cl.app))
      case Die(c) => Update(w, c, cl.(handler := Dead))
  }

  // ---------------------------------------------------------------- the invariant

  function Apply(page: Page, writes: seq<Write>): (r: Page)
    ensures |r| == |page|
  {
    if writes == [] then page
    else
      var before := Apply(page, writes[..|writes| - 1]);
      var last := writes[|writes| - 1];
      if last.at < |page| then before[last.at := last.value] else before
  }

  ghost predicate StoreOk(s: Store) {
    && |s.meta| == |s.memfd| == |s.loader| == |s.fetched| == |s.backend|
    && forall p :: 0 <= p < |s.meta| ==> PageOk(s, p)
  }

  /** A page in the memfd is the backend's page; it was read once, by its one loader. */
  ghost predicate PageOk(s: Store, p: nat)
    requires |s.meta| == |s.memfd| == |s.loader| == |s.fetched| == |s.backend| && p < |s.meta|
  {
    && (s.meta[p].Unloaded? <==> s.loader[p].None?)
    && (s.meta[p].Unloaded? ==> s.memfd[p].None? && s.fetched[p] == 0)
    && (s.meta[p].SharedReady? ==> s.memfd[p].Some?)
    && (s.memfd[p].Some? ==> s.memfd[p] == s.backend[p])
    && s.fetched[p] <= 1
  }

  /** Client `c` loaded page `p`. */
  ghost predicate LoadedBy(s: Store, p: nat, c: ClientId) {
    p < |s.loader| == |s.memfd| && s.loader[p] == Some(c) && s.memfd[p].Some?
  }

  /** Client `c` is loading page `p` and has not copied it in yet. */
  ghost predicate LoadingBy(s: Store, p: nat, c: ClientId) {
    p < |s.loader| == |s.memfd| == |s.meta| && s.loader[p] == Some(c) && s.memfd[p].None? && s.meta[p].Loading?
  }

  predicate InWp(h: Handler, p: nat) {
    (h.Snapped? || h.Unprotected? || h.Remapped? || h.Filled? || h.MarkedPrivate? || h.MarkedDirty?) && h.page == p
  }

  /** Between the remapping of `p` and the dirty mark. */
  predicate Unmarked(h: Handler, p: nat) {
    (h.Remapped? || h.Filled? || h.MarkedPrivate?) && h.page == p
  }

  ghost predicate HandlerOk(s: Store, c: ClientId, cl: Client) {
    match cl.handler
    case Claimed(p) => LoadingBy(s, p, c) && p < |s.fetched| && s.fetched[p] == 0
    case ReadDone(p, data) => LoadingBy(s, p, c) && p < |s.backend| && s.backend[p] == Some(data)
    case Copied(p) => LoadedBy(s, p, c) && p < |s.meta| && s.meta[p].Loading?
    case Snapped(p, data) =>
      LoadedBy(s, p, c) && s.memfd[p] == Some(data) && cl.app == Faulted(p, true) && p < |cl.mapping| &&
        cl.mapping[p] == Shared(true)
    case Unprotected(p, data) =>
      LoadedBy(s, p, c) && s.memfd[p] == Some(data) && cl.app == Faulted(p, true) && p < |cl.mapping| &&
        cl.mapping[p] == Shared(false)
    case Remapped(p, data) =>
      && LoadedBy(s, p, c) && s.memfd[p] == Some(data) && cl.app == Faulted(p, true)
      && p < |cl.mapping| == |cl.own| && cl.mapping[p].Private? && cl.own[p] == []
    case Filled(p) =>
      && LoadedBy(s, p, c) && cl.app == Faulted(p, true)
      && p < |cl.mapping| == |cl.own| && cl.mapping[p].Private? && cl.own[p] == []
    case MarkedPrivate(p) =>
      && LoadedBy(s, p, c) && cl.app == Faulted(p, true)
      && p < |cl.mapping| == |cl.own| && cl.mapping[p].Private? && cl.own[p] == []
    case MarkedDirty(p) => LoadedBy(s, p, c) && cl.app == Faulted(p, true) && p < |cl.mapping| && cl.mapping[p].Private?
    case _ => true
  }

  ghost predicate MappingOk(s: Store, c: ClientId, cl: Client, p: nat)
    requires p < |cl.mapping| == |cl.dirty| == |cl.isPrivate| == |cl.own|
  {
    match cl.mapping[p]
    case Shared(wp) =>
      && (wp ==> LoadedBy(s, p, c))
      && (!wp && LoadedBy(s, p, c) ==> cl.app == Faulted(p, true))
      && !cl.dirty[p] && !cl.isPrivate[p]
    case Private(data) =>
      && LoadedBy(s, p, c)
      && ((cl.handler.Remapped? && cl.handler.page == p) || data == Apply(s.memfd[p].value, cl.own[p]))
      && (cl.dirty[p] <==> !Unmarked(cl.handler, p))
      && (cl.isPrivate[p] <==> !(Unmarked(cl.handler, p) && !cl.handler.MarkedPrivate?))
  }

  /** A write-protect fault not yet taken up finds its page still shared and protected. */
  ghost predicate AppOk(s: Store, c: ClientId, cl: Client) {
    cl.app.Faulted? && cl.app.wp && !InWp(cl.handler, cl.app.page) && !cl.handler.Dead? ==>
      cl.app.page < |cl.mapping| && cl.mapping[cl.app.page] == Shared(true)
  }

  ghost predicate ClientOk(s: Store, c: ClientId, cl: Client) {
    && ClientSized(cl, |s.backend|)
    && HandlerOk(s, c, cl)
    && AppOk(s, c, cl)
    && forall p :: 0 <= p < |cl.mapping| ==> MappingOk(s, c, cl, p)
  }

  ghost predicate Inv(w: World) {
    && StoreOk(w.store)
    && (forall p :: 0 <= p < |w.store.loader| && w.store.loader[p].Some? ==> w.store.loader[p].value in w.clients)
    && forall c :: c in w.clients ==> ClientOk(w.store, c, w.clients[c])
  }

  /** A write that reaches the memfd: by a running client through a mapping without protection, changing a byte. */
  ghost predicate Tampers(w: World, s: Step) {
    && s.AppWrite? && s.c in w.clients && s.p < |w.store.memfd| == |w.store.loader| && w.store.memfd[s.p].Some?
    && w.store.loader[s.p] != Some(s.c)
    && s.at < |w.store.memfd[s.p].value| && w.store.memfd[s.p].value[s.at] != s.value
  }

  // ---------------------------------------------------------------- preservation

  /** A store change that leaves client `c`'s own pages alone keeps what is known of it. */
  ghost predicate KeepsPagesOf(s: Store, t: Store, c: ClientId) {
    && |s.meta| == |s.memfd| == |s.loader| == |s.fetched| == |s.backend|
    && |t.meta| == |t.memfd| == |t.loader| == |t.fetched| == |t.backend| == |s.backend|
    && t.backend == s.backend
    && forall p :: 0 <= p < |s.loader| && (s.loader[p] == Some(c) || t.loader[p] == Some(c)) ==>
         t.loader[p] == s.loader[p] && t.memfd[p] == s.memfd[p] && t.meta[p] == s.meta[p] &&
           t.fetched[p] == s.fetched[p]
  }

  lemma OtherClientKeeps(s: Store, t: Store, c: ClientId, cl: Client)
    requires ClientOk(s, c, cl) && KeepsPagesOf(s, t, c)
    ensures ClientOk(t, c, cl)
  {
    forall p | 0 <= p < |cl.mapping|
      ensures MappingOk(t, c, cl, p)
    {
      assert MappingOk(s, c, cl, p);
      assert LoadedBy(t, p, c) <==> LoadedBy(s, p, c);
    }
  }

  lemma OthersKeep(w: World, v: World, c: ClientId)
    requires Inv(w) && v.clients.Keys == w.clients.Keys + {c}
    requires forall d :: d in w.clients && d != c ==> v.clients[d] == w.clients[d] && KeepsPagesOf(w.store, v.store, d)
    requires StoreOk(v.store) && ClientOk(v.store, c, v.clients[c])
    requires |v.store.loader| == |w.store.loader|
    requires forall p :: 0 <= p < |v.store.loader| ==>
               v.store.loader[p] == w.store.loader[p] || v.store.loader[p] == Some(c)
    ensures Inv(v)
  {
    forall d | d in v.clients
      ensures ClientOk(v.store, d, v.clients[d])
    {
      if d != c {
        OtherClientKeeps(w.store, v.store, d, w.clients[d]);
      }
    }
  }

  /** Steps that change nothing but client `c` need only re-establish what is known of `c`. */
  lemma LocalStep(w: World, c: ClientId, cl: Client)
    requires Inv(w) && ClientOk(w.store, c, cl)
    ensures Inv(Update(w, c, cl))
  {
    OthersKeep(w, Update(w, c, cl), c);
  }

  lemma AttachKeeps(w: World, c: ClientId)
    requires Inv(w) && c !in w.clients
    ensures Inv(Update(w, c, Fresh(Count(w.store))))
  {
    LocalStep(w, c, Fresh(Count(w.store)));
  }

  /** The store changes, but not which pages `c` has loaded. */
  lemma MappingsKeep(s: Store, t: Store, c: ClientId, cl: Client)
    requires ClientOk(s, c, cl) && |t.backend| == |s.backend|
    requires forall p: nat :: LoadedBy(t, p, c) <==> LoadedBy(s, p, c)
    requires forall p: nat :: LoadedBy(s, p, c) && LoadedBy(t, p, c) ==> t.memfd[p] == s.memfd[p]
    ensures forall p :: 0 <= p < |cl.mapping| ==> MappingOk(t, c, cl, p)
  {
    forall p | 0 <= p < |cl.mapping|
      ensures MappingOk(t, c, cl, p)
    {
      assert MappingOk(s, c, cl, p);
    }
  }

  /** While the application runs, every unprotected shared mapping is of a page the client did not load. */
  lemma RunningIsProtected(s: Store, c: ClientId, cl: Client, p: nat)
    requires ClientOk(s, c, cl) && cl.app.Running? && p < |cl.mapping| && cl.mapping[p] == Shared(false)
    ensures !LoadedBy(s, p, c)
  {
    assert MappingOk(s, c, cl, p);
  }

  /** The application thread enters or leaves a fault while its handler is outside the write-protect path. */
  lemma AppMoves(s: Store, c: ClientId, cl: Client, app: App, handler: Handler)
    requires ClientOk(s, c, cl) && (cl.app.Running? || !cl.app.wp)
    requires handler == cl.handler || handler.Idle? || handler.Waiting?
    requires app.Faulted? && app.wp ==> app.page < |cl.mapping| && cl.mapping[app.page] == Shared(true)
    ensures ClientOk(s, c, cl.(app := app, handler := handler))
  {
    var cl' := cl.(app := app, handler := handler);
    forall p | 0 <= p < |cl'.mapping|
      ensures MappingOk(s, c, cl', p)
    {
      assert MappingOk(s, c, cl, p);
    }
  }

  lemma AppReadKeeps(w: World, c: ClientId, p: nat)
    requires Inv(w) && Enabled(w, AppRead(c, p))
    ensures Inv(Next(w, AppRead(c, p)))
  {
    var cl := w.clients[c];
    AppMoves(w.store, c, cl, Faulted(p, false), cl.handler);
    LocalStep(w, c, cl.(app := Faulted(p, false), handler := cl.handler));
  }

  lemma PrivateWriteKeeps(s: Store, c: ClientId, cl: Client, p: nat, at: nat, value: Byte)
    requires ClientOk(s, c, cl) && cl.app.Running? && p < |cl.mapping| && cl.mapping[p].Private?
    requires at < |cl.mapping[p].data|
    ensures ClientOk(s, c, cl.(mapping := cl.mapping[p := Private(cl.mapping[p].data[at := value])],
                               own := cl.own[p := cl.own[p] + [Write(at, value)]]))
  {
    var data, writes := cl.mapping[p].data, cl.own[p] + [Write(at, value)];
    var cl' := cl.(mapping := cl.mapping[p := Private(data[at := value])], own := cl.own[p := writes]);
    assert MappingOk(s, c, cl, p);
    assert writes[..|writes| - 1] == cl.own[p];
    forall q | 0 <= q < |cl'.mapping|
      ensures MappingOk(s, c, cl', q)
    {
      assert MappingOk(s, c, cl, q);
    }
  }

  lemma AppWriteKeeps(w: World, c: ClientId, p: nat, at: nat, value: Byte)
    requires Inv(w) && Enabled(w, AppWrite(c, p, at, value)) && !Tampers(w, AppWrite(c, p, at, value))
    ensures Inv(Next(w, AppWrite(c, p, at, value)))
  {
    var cl := w.clients[c];
    var v := WriteStep(w, c, p, at, value);
    assert MappingOk(w.store, c, cl, p);
    if cl.mapping[p].Private? {
      PrivateWriteKeeps(w.store, c, cl, p, at, value);
      LocalStep(w, c, v.clients[c]);
    } else if w.store.memfd[p].None? || cl.mapping[p].wp {
      AppMoves(w.store, c, cl, v.clients[c].app, cl.handler);
      LocalStep(w, c, v.clients[c]);
    } else {
      RunningIsProtected(w.store, c, cl, p);
      assert w.store.memfd[p].value[at := value] == w.store.memfd[p].value;
      assert v.store.memfd == w.store.memfd;
      assert v == w;
    }
  }

  lemma TakeMissingKeeps(w: World, c: ClientId)
    requires Inv(w) && Enabled(w, TakeMissing(c))
    ensures Inv(Next(w, TakeMissing(c)))
  {
    var cl := w.clients[c];
    var p := cl.app.page;
    var v := TakeMissingStep(w, c);
    assert PageOk(w.store, p);
    match w.store.meta[p]
    case Unloaded =>
      forall q | 0 <= q < |v.store.meta|
        ensures PageOk(v.store, q)
      {
        assert PageOk(w.store, q);
      }
      MappingsKeep(w.store, v.store, c, cl);
      ClaimKeeps(v.store, c, cl, p);
      OthersKeep(w, v, c);
    case Loading =>
      AppMoves(w.store, c, cl, cl.app, Waiting(p));
      LocalStep(w, c, v.clients[c]);
    case SharedReady =>
      AppMoves(w.store, c, cl, Running, cl.handler);
      LocalStep(w, c, v.clients[c]);
  }

  lemma ClaimKeeps(s: Store, c: ClientId, cl: Client, p: nat)
    requires ClientSized(cl, |s.backend|) && cl.handler.Idle? && (cl.app.Running? || !cl.app.wp)
    requires forall q :: 0 <= q < |cl.mapping| ==> MappingOk(s, c, cl, q)
    requires LoadingBy(s, p, c) && p < |s.fetched| && s.fetched[p] == 0
    ensures ClientOk(s, c, cl.(handler := Claimed(p)))
  {
    var cl' := cl.(handler := Claimed(p));
    forall q | 0 <= q < |cl'.mapping|
      ensures MappingOk(s, c, cl', q)
    {
      assert MappingOk(s, c, cl, q);
    }
  }

  /** The handler moves along the loading path; no page is being made private. */
  lemma LoaderMoves(s: Store, c: ClientId, cl: Client, handler: Handler)
    requires ClientSized(cl, |s.backend|) && (cl.handler.Claimed? || cl.handler.Copied?) && AppOk(s, c, cl)
    requires forall q :: 0 <= q < |cl.mapping| ==> MappingOk(s, c, cl, q)
    requires handler.ReadDone? || handler.Idle? || handler.Dead?
    requires HandlerOk(s, c, cl.(handler := handler))
    ensures ClientOk(s, c, cl.(handler := handler))
  {
    var cl' := cl.(handler := handler);
    forall q | 0 <= q < |cl'.mapping|
      ensures MappingOk(s, c, cl', q)
    {
      assert MappingOk(s, c, cl, q);
    }
  }

  lemma ReadBackendKeeps(w: World, c: ClientId, ok: bool)
    requires Inv(w) && Enabled(w, ReadBackend(c, ok))
    ensures Inv(Next(w, ReadBackend(c, ok)))
  {
    var cl := w.clients[c];
    var v := ReadStep(w, c, ok);
    forall q | 0 <= q < |v.store.meta|
      ensures PageOk(v.store, q)
    {
      assert PageOk(w.store, q);
    }
    MappingsKeep(w.store, v.store, c, cl);
    LoaderMoves(v.store, c, cl, v.clients[c].handler);
    OthersKeep(w, v, c);
  }

  lemma CopyInKeeps(w: World, c: ClientId)
    requires Inv(w) && Enabled(w, CopyIn(c))
    ensures Inv(Next(w, CopyIn(c)))
  {
    var cl := w.clients[c];
    var p := cl.handler.page;
    var v := CopyStep(w, c);
    var cl' := v.clients[c];
    forall q | 0 <= q < |v.store.meta|
      ensures PageOk(v.store, q)
    {
      assert PageOk(w.store, q);
    }
    forall q | 0 <= q < |cl'.mapping|
      ensures MappingOk(v.store, c, cl', q)
    {
      assert MappingOk(w.store, c, cl, q);
      assert q != p ==> (LoadedBy(v.store, q, c) <==> LoadedBy(w.store, q, c));
    }
    OthersKeep(w, v, c);
  }

  lemma MarkReadyKeeps(w: World, c: ClientId)
    requires Inv(w) && Enabled(w, MarkReady(c))
    ensures Inv(Next(w, MarkReady(c)))
  {
    var cl := w.clients[c];
    var v := Next(w, MarkReady(c));
    forall q | 0 <= q < |v.store.meta|
      ensures PageOk(v.store, q)
    {
      assert PageOk(w.store, q);
    }
    MappingsKeep(w.store, v.store, c, cl);
    LoaderMoves(v.store, c, cl, Idle);
    OthersKeep(w, v, c);
  }

  lemma SpinDoneKeeps(w: World, c: ClientId)
    requires Inv(w) && Enabled(w, SpinDone(c))
    ensures Inv(Next(w, SpinDone(c)))
  {
    var cl := w.clients[c];
    var v := Next(w, SpinDone(c));
    if cl.app.Running? || !cl.app.wp {
      AppMoves(w.store, c, cl, v.clients[c].app, Idle);
    } else {
      forall q | 0 <= q < |cl.mapping|
        ensures MappingOk(w.store, c, v.clients[c], q)
      {
        assert MappingOk(w.store, c, cl, q);
      }
    }
    LocalStep(w, c, v.clients[c]);
  }

  lemma TakeWpKeeps(w: World, c: ClientId)
    requires Inv(w) && Enabled(w, TakeWp(c))
    ensures Inv(Next(w, TakeWp(c)))
  {
    var cl := w.clients[c];
    var cl' := Next(w, TakeWp(c)).clients[c];
    assert MappingOk(w.store, c, cl, cl.app.page);
    forall q | 0 <= q < |cl'.mapping|
      ensures MappingOk(w.store, c, cl', q)
    {
      assert MappingOk(w.store, c, cl, q);
    }
    LocalStep(w, c, cl');
  }

  /** The write-protect path touches only its own page and its own client. */
  lemma WpPageStepKeeps(w: World, s: Step)
    requires Inv(w) && Enabled(w, s) && (s.WpUnprotect? || s.WpRemap? || s.WpFill?)
    ensures Inv(Next(w, s))
  {
    var cl := w.clients[s.c];
    var cl' := Next(w, s).clients[s.c];
    assert MappingOk(w.store, s.c, cl, cl.handler.page);
    forall q | 0 <= q < |cl'.mapping|
      ensures MappingOk(w.store, s.c, cl', q)
    {
      assert MappingOk(w.store, s.c, cl, q);
    }
    LocalStep(w, s.c, cl');
  }

  lemma WpMarkStepKeeps(w: World, s: Step)
    requires Inv(w) && Enabled(w, s) && (s.WpMarkPrivate? || s.WpMarkDirty? || s.WpWake?)
    ensures Inv(Next(w, s))
  {
    var cl := w.clients[s.c];
    var cl' := Next(w, s).clients[s.c];
    assert MappingOk(w.store, s.c, cl, cl.handler.page);
    forall q | 0 <= q < |cl'.mapping|
      ensures MappingOk(w.store, s.c, cl', q)
    {
      assert MappingOk(w.store, s.c, cl, q);
    }
    LocalStep(w, s.c, cl');
  }

  lemma DieKeeps(w: World, c: ClientId)
    requires Inv(w) && Enabled(w, Die(c))
    ensures Inv(Next(w, Die(c)))
  {
    var cl := w.clients[c];
    forall q | 0 <= q < |cl.mapping|
      ensures MappingOk(w.store, c, cl.(handler := Dead), q)
    {
      assert MappingOk(w.store, c, cl, q);
    }
    LocalStep(w, c, cl.(handler := Dead));
  }

  /** Every step but tampering keeps the invariant. */
  lemma StepKeepsInv(w: World, s: Step)
    requires Inv(w) && Enabled(w, s) && !Tampers(w, s)
    ensures Inv(Next(w, s))
  {
    match s
    case Attach(c) => AttachKeeps(w, c);
    case AppRead(c, p) => AppReadKeeps(w, c, p);
    case AppWrite(c, p, at, value) => AppWriteKeeps(w, c, p, at, value);
    case TakeMissing(c) => TakeMissingKeeps(w, c);
    case ReadBackend(c, ok) => ReadBackendKeeps(w, c, ok);
    case CopyIn(c) => CopyInKeeps(w, c);
    case MarkReady(c) => MarkReadyKeeps(w, c);
    case SpinDone(c) => SpinDoneKeeps(w, c);
    case TakeWp(c) => TakeWpKeeps(w, c);
    case Die(c) => DieKeeps(w, c);
    case WpUnprotect(_) => WpPageStepKeeps(w, s);
    case WpRemap(_) => WpPageStepKeeps(w, s);
    case WpFill(_) => WpPageStepKeeps(w, s);
    case _ => WpMarkStepKeeps(w, s);
  }

  // ---------------------------------------------------------------- whole runs

  ghost predicate Runs(w: World, steps: seq<Step>)
    decreases |steps|
  {
    steps == [] || (Enabled(w, steps[0]) && Runs(Next(w, steps[0]), steps[1..]))
  }

  ghost function End(w: World, steps: seq<Step>): World
    requires Runs(w, steps)
    decreases |steps|
  {
    if steps == [] then w else End(Next(w, steps[0]), steps[1..])
  }

  /** In no step does a client change a loaded page it did not load itself. */
  ghost predicate LoaderWritesOnly(w: World, steps: seq<Step>)
    requires Runs(w, steps)
    decreases |steps|
  {
    steps == [] || (!Tampers(w, steps[0]) && LoaderWritesOnly(Next(w, steps[0]), steps[1..]))
  }

  /** The memfd holds nothing but backend pages. */
  ghost predicate Isolated(w: World) {
    && |w.store.memfd| == |w.store.backend|
    && forall p :: 0 <= p < |w.store.memfd| && w.store.memfd[p].Some? ==> w.store.memfd[p] == w.store.backend[p]
  }

  ghost predicate AlwaysIsolated(w: World, steps: seq<Step>)
    requires Runs(w, steps)
    decreases |steps|
  {
    Isolated(w) && (steps == [] || AlwaysIsolated(Next(w, steps[0]), steps[1..]))
  }

  lemma EmptyIsSound(backend: seq<Option<Page>>)
    ensures Inv(Empty(backend))
  {
  }

  lemma BackendStays(w: World, s: Step)
    requires Enabled(w, s)
    ensures Next(w, s).store.backend == w.store.backend
  {
  }

  lemma {:induction false} InvAlong(w: World, steps: seq<Step>)
    requires Inv(w) && Runs(w, steps) && LoaderWritesOnly(w, steps)
    ensures Inv(End(w, steps)) && End(w, steps).store.backend == w.store.backend
    decreases |steps|
  {
    if steps != [] {
      hide Inv, Enabled, Next, Tampers;
      StepKeepsInv(w, steps[0]);
      BackendStays(w, steps[0]);
      InvAlong(Next(w, steps[0]), steps[1..]);
    }
  }

  /** Every interleaving from the empty template in which each page is changed by its loader alone ends soundly. */
  lemma PoliteRunIsSound(backend: seq<Option<Page>>, steps: seq<Step>)
    requires Runs(Empty(backend), steps) && LoaderWritesOnly(Empty(backend), steps)
    ensures Inv(End(Empty(backend), steps)) && End(Empty(backend), steps).store.backend == backend
  {
    hide Inv, Runs, LoaderWritesOnly, End;
    EmptyIsSound(backend);
    InvAlong(Empty(backend), steps);
  }

  /** A tampering write does change the memfd. */
  lemma TamperingShows(w: World, s: Step)
    requires Inv(w) && Enabled(w, s) && Tampers(w, s)
    ensures !Isolated(Next(w, s))
  {
    var cl := w.clients[s.c];
    assert PageOk(w.store, s.p);
    assert MappingOk(w.store, s.c, cl, s.p);
    var v := WriteStep(w, s.c, s.p, s.at, s.value);
    assert v.store.memfd[s.p].value[s.at] == s.value;
    assert v.store.memfd[s.p] != w.store.memfd[s.p];
  }

  lemma {:induction false} IsolatedIffFrom(w: World, steps: seq<Step>)
    requires Inv(w) && Runs(w, steps)
    ensures AlwaysIsolated(w, steps) <==> LoaderWritesOnly(w, steps)
    decreases |steps|
  {
    assert Isolated(w) by {
      forall p | 0 <= p < |w.store.memfd| && w.store.memfd[p].Some?
        ensures w.store.memfd[p] == w.store.backend[p]
      {
        assert PageOk(w.store, p);
      }
    }
    if steps != [] {
      if Tampers(w, steps[0]) {
        TamperingShows(w, steps[0]);
      } else {
        StepKeepsInv(w, steps[0]);
        IsolatedIffFrom(Next(w, steps[0]), steps[1..]);
      }
    }
  }

  /** A run from the empty template is isolated throughout exactly when every page is changed by its loader alone. */
  lemma IsolatedIffLoaderWritesOnly(backend: seq<Option<Page>>, steps: seq<Step>)
    requires Runs(Empty(backend), steps)
    ensures AlwaysIsolated(Empty(backend), steps) <==> LoaderWritesOnly(Empty(backend), steps)
  {
    hide Inv, Runs, LoaderWritesOnly, AlwaysIsolated;
    EmptyIsSound(backend);
    IsolatedIffFrom(Empty(backend), steps);
  }

  lemma {:induction false} OneMoreStep(w: World, steps: seq<Step>, s: Step)
    requires Runs(w, steps) && Enabled(End(w, steps), s)
    ensures Runs(w, steps + [s]) && End(w, steps + [s]) == Next(End(w, steps), s)
    decreases |steps|
  {
    if steps == [] {
      assert [s][1..] == [];
    } else {
      assert (steps + [s])[1..] == steps[1..] + [s];
      OneMoreStep(Next(w, steps[0]), steps[1..], s);
    }
  }

  /** Two clients of a one-page template; the first has touched the page. */
  lemma TouchByFirst(a: Byte) returns (steps: seq<Step>, w: World)
    ensures Runs(Empty([Some([a])]), steps) && End(Empty([Some([a])]), steps) == w
    ensures w.store == Store([Some([a])], [Unloaded], [None], [None], [0])
    ensures w.clients == map[1 := Fresh(1).(app := Faulted(0, false)), 2 := Fresh(1)]
  {
    var w0 := Empty([Some([a])]);
    OneMoreStep(w0, [], Attach(1));
    steps := [] + [Attach(1)];
    OneMoreStep(w0, steps, Attach(2));
    steps := steps + [Attach(2)];
    w := End(w0, steps);
    assert w.store == Store([Some([a])], [Unloaded], [None], [None], [0]);
    assert w.clients == map[1 := Fresh(1), 2 := Fresh(1)];
    OneMoreStep(w0, steps, AppRead(1, 0));
    steps := steps + [AppRead(1, 0)];
    w := End(w0, steps);
  }

  lemma ClaimByFirst(a: Byte) returns (steps: seq<Step>, w: World)
    ensures Runs(Empty([Some([a])]), steps) && End(Empty([Some([a])]), steps) == w
    ensures w.store == Store([Some([a])], [Loading], [None], [Some(1)], [1])
    ensures w.clients == map[1 := Fresh(1).(app := Faulted(0, false), handler := ReadDone(0, [a])), 2 := Fresh(1)]
  {
    var w0 := Empty([Some([a])]);
    steps, w := TouchByFirst(a);
    OneMoreStep(w0, steps, TakeMissing(1));
    steps := steps + [TakeMissing(1)];
    w := End(w0, steps);
    assert w.store == Store([Some([a])], [Loading], [None], [Some(1)], [0]);
    OneMoreStep(w0, steps, ReadBackend(1, true));
    steps := steps + [ReadBackend(1, true)];
    w := End(w0, steps);
  }

  lemma LoadByFirst(a: Byte) returns (steps: seq<Step>, w: World)
    ensures Runs(Empty([Some([a])]), steps) && End(Empty([Some([a])]), steps) == w
    ensures w.store == Store([Some([a])], [SharedReady], [Some([a])], [Some(1)], [1])
    ensures w.clients == map[1 := Fresh(1).(mapping := [Shared(true)]), 2 := Fresh(1)]
  {
    var w0 := Empty([Some([a])]);
    steps, w := ClaimByFirst(a);
    OneMoreStep(w0, steps, CopyIn(1));
    steps := steps + [CopyIn(1)];
    w := End(w0, steps);
    assert w.store == Store([Some([a])], [Loading], [Some([a])], [Some(1)], [1]);
    assert Fresh(1).mapping[0 := Shared(true)] == [Shared(true)];
    assert w.clients == map[1 := Fresh(1).(mapping := [Shared(true)], handler := Copied(0)), 2 := Fresh(1)];
    OneMoreStep(w0, steps, MarkReady(1));
    steps := steps + [MarkReady(1)];
    w := End(w0, steps);
  }

  /** A run that ends with client 2 writing `b` and leaves it in the memfd everyone shares. */
  ghost predicate TampersWith(a: Byte, b: Byte, steps: seq<Step>) {
    && Runs(Empty([Some([a])]), steps) && steps != [] && steps[|steps| - 1] == AppWrite(2, 0, 0, b)
    && End(Empty([Some([a])]), steps).store.memfd == [Some([b])]
  }

  /** A second client that writes a page it did not load: the write lands in the memfd everyone shares. */
  lemma NonLoaderWriteTampers(a: Byte, b: Byte)
    requires a != b
    ensures exists steps :: TampersWith(a, b, steps)
  {
    var w0 := Empty([Some([a])]);
    var before, w := LoadByFirst(a);
    OneMoreStep(w0, before, AppWrite(2, 0, 0, b));
    var steps := before + [AppWrite(2, 0, 0, b)];
    assert [a][0 := b] == [b];
    assert TampersWith(a, b, steps);
  }

  // ---------------------------------------------------------------- the loading protocol

  /** Page states only advance, one compare-and-swap and one loader per page, and only the loader reads the backend. */
  lemma LoadingProtocol(w: World, s: Step, p: nat)
    requires Inv(w) && Enabled(w, s) && !Tampers(w, s) && p < Count(w.store)
    ensures var t := Next(w, s).store;
            && |t.meta| == |t.loader| == |t.fetched| == |t.memfd| == Count(w.store)
            && (t.meta[p] != w.store.meta[p] ==>
                  || (w.store.meta[p].Unloaded? && t.meta[p].Loading? && s.TakeMissing? && t.loader[p] == Some(s.c))
                  || (w.store.meta[p].Loading? && t.meta[p].SharedReady? && s.MarkReady? &&
                      w.store.loader[p] == Some(s.c)))
            && (w.store.loader[p].Some? ==> t.loader[p] == w.store.loader[p])
            && (t.fetched[p] != w.store.fetched[p] ==> s.ReadBackend? && w.store.loader[p] == Some(s.c))
            && t.fetched[p] <= 1
            && (w.store.memfd[p].Some? ==> t.memfd[p] == w.store.memfd[p])
            && (t.meta[p].SharedReady? ==> t.memfd[p].Some? && t.memfd[p] == t.backend[p])
  {
    StepKeepsInv(w, s);
    assert PageOk(w.store, p);
    assert PageOk(Next(w, s).store, p);
    if s.AppWrite? && w.store.memfd[s.p].Some? && w.clients[s.c].mapping[s.p].Shared? {
      var page := w.store.memfd[s.p].value;
      assert !w.clients[s.c].mapping[s.p].wp ==> !LoadedBy(w.store, s.p, s.c) by {
        assert MappingOk(w.store, s.c, w.clients[s.c], s.p);
      }
      assert page[s.at] == s.value ==> page[s.at := s.value] == page;
    }
  }

  function Rank(s: PageState): nat {
    match s
    case Unloaded => 0
    case Loading => 1
    case SharedReady => 2
  }

  /** From store `s` to store `t` page `p` only got on with its loading. */
  ghost predicate Advanced(s: Store, t: Store, p: nat) {
    && p < |s.meta| == |s.loader| == |s.memfd| && p < |t.meta| == |t.loader| == |t.memfd|
    && Rank(s.meta[p]) <= Rank(t.meta[p])
    && (s.loader[p].Some? ==> t.loader[p] == s.loader[p])
    && (s.memfd[p].Some? ==> t.memfd[p] == s.memfd[p])
  }

  lemma {:induction false} AdvancesAlong(w: World, steps: seq<Step>, p: nat)
    requires Inv(w) && Runs(w, steps) && LoaderWritesOnly(w, steps) && p < Count(w.store)
    ensures Advanced(w.store, End(w, steps).store, p)
    decreases |steps|
  {
    if steps != [] {
      hide Inv, Enabled, Next, Tampers;
      StepKeepsInv(w, steps[0]);
      LoadingProtocol(w, steps[0], p);
      BackendStays(w, steps[0]);
      AdvancesAlong(Next(w, steps[0]), steps[1..], p);
    }
  }

  lemma {:induction false} RunSplits(w: World, steps: seq<Step>, n: nat)
    requires Runs(w, steps) && n <= |steps|
    ensures Runs(w, steps[..n]) && Runs(End(w, steps[..n]), steps[n..])
    ensures End(End(w, steps[..n]), steps[n..]) == End(w, steps)
    ensures LoaderWritesOnly(w, steps) ==>
              LoaderWritesOnly(w, steps[..n]) && LoaderWritesOnly(End(w, steps[..n]), steps[n..])
    decreases n
  {
    hide Enabled, Next, Tampers;
    if n == 0 {
      assert steps[..0] == [] && steps[0..] == steps;
    } else {
      RunSplits(Next(w, steps[0]), steps[1..], n - 1);
      assert steps[1..][..n - 1] == steps[..n][1..];
      assert steps[1..][n - 1..] == steps[n..];
    }
  }

  /**
    From any point of such a run to its end a page's state does not go back, its loader and its bytes in
    the memfd stay; it is read from the backend at most once, and ready it is the backend's page.
   */
  lemma PagesLoadOnce(backend: seq<Option<Page>>, steps: seq<Step>, n: nat, p: nat)
    requires Runs(Empty(backend), steps) && LoaderWritesOnly(Empty(backend), steps) && n <= |steps| && p < |backend|
    ensures Runs(Empty(backend), steps[..n])
    ensures var s, t := End(Empty(backend), steps[..n]).store, End(Empty(backend), steps).store;
            && Advanced(s, t, p) && |t.fetched| == |backend| && t.fetched[p] <= 1
            && (t.meta[p].SharedReady? ==> t.memfd[p].Some? && t.memfd[p] == backend[p])
  {
    hide Runs, LoaderWritesOnly, End, Advanced;
    var w0 := Empty(backend);
    RunSplits(w0, steps, n);
    PoliteRunIsSound(backend, steps[..n]);
    PoliteRunIsSound(backend, steps);
    AdvancesAlong(End(w0, steps[..n]), steps[n..], p);
    var t := End(w0, steps).store;
    AdvancedHas(End(w0, steps[..n]).store, t, p);
    assert PageOk(t, p);
  }

  lemma AdvancedHas(s: Store, t: Store, p: nat)
    requires Advanced(s, t, p)
    ensures p < |t.meta| == |t.memfd|
  {
  }

  // ---------------------------------------------------------------- what clients see

  /** What client `c` reads at page `p`, once any missing fault is served. */
  ghost function View(w: World, c: ClientId, p: nat): Option<Page>
    requires c in w.clients && p < |w.clients[c].mapping| && p < |w.store.memfd| == |w.store.backend|
  {
    match w.clients[c].mapping[p]
    case Private(data) => Some(data)
    case Shared(_) => if w.store.memfd[p].Some? then w.store.memfd[p] else w.store.backend[p]
  }

  /** A shared page reads as the backend's page; a private one as that page with exactly the client's own writes. */
  lemma ViewIsBackendPlusOwnWrites(w: World, c: ClientId, p: nat)
    requires Inv(w) && c in w.clients && p < Count(w.store)
    requires !(w.clients[c].handler.Remapped? && w.clients[c].handler.page == p)
    ensures w.clients[c].mapping[p].Shared? ==> View(w, c, p) == w.store.backend[p]
    ensures w.clients[c].mapping[p].Private? ==>
              && w.store.backend[p].Some?
              && View(w, c, p) == Some(Apply(w.store.backend[p].value, w.clients[c].own[p]))
  {
    assert PageOk(w.store, p);
    assert MappingOk(w.store, c, w.clients[c], p);
  }

  /** At the end of any such run every client sees the template's pages with nothing but its own writes on them. */
  lemma ClientsSeeOwnWritesOnly(backend: seq<Option<Page>>, steps: seq<Step>, c: ClientId, p: nat)
    requires Runs(Empty(backend), steps) && LoaderWritesOnly(Empty(backend), steps) && p < |backend|
    requires var w := End(Empty(backend), steps);
             c in w.clients && !(w.clients[c].handler.Remapped? && w.clients[c].handler.page == p)
    ensures var w := End(Empty(backend), steps);
            && p < |w.clients[c].mapping| == |w.clients[c].own| && p < |w.store.memfd| == |w.store.backend|
            && (w.clients[c].mapping[p].Shared? ==> View(w, c, p) == backend[p])
            && (w.clients[c].mapping[p].Private? ==>
                  backend[p].Some? && View(w, c, p) == Some(Apply(backend[p].value, w.clients[c].own[p])))
  {
    hide Runs, LoaderWritesOnly, End, View, Apply, HandlerOk, MappingOk, AppOk, PageOk;
    PoliteRunIsSound(backend, steps);
    var w := End(Empty(backend), steps);
    assert ClientOk(w.store, c, w.clients[c]);
    ViewIsBackendPlusOwnWrites(w, c, p);
  }

  /** A write by its page's loader changes no other client's view, and of its own only the byte written. */
  lemma WriteIsPrivate(w: World, c: ClientId, p: nat, at: nat, value: Byte, d: ClientId, q: nat)
    requires Inv(w) && Enabled(w, AppWrite(c, p, at, value)) && !Tampers(w, AppWrite(c, p, at, value))
    requires d in w.clients && q < Count(w.store)
    ensures var v := Next(w, AppWrite(c, p, at, value));
            && v.store == w.store
            && |v.clients[d].mapping| == Count(w.store)
            && (d != c || q != p ==> View(v, d, q) == View(w, d, q))
            && (w.clients[c].mapping[p].Private? ==> View(v, c, p) == Some(w.clients[c].mapping[p].data[at := value]))
            && (w.clients[c].mapping[p].Shared? ==> View(v, c, p) == View(w, c, p))
  {
    var cl := w.clients[c];
    assert MappingOk(w.store, c, cl, p);
    var v := WriteStep(w, c, p, at, value);
    if cl.mapping[p].Shared? && w.store.memfd[p].Some? && !cl.mapping[p].wp {
      assert w.store.memfd[p].value[at := value] == w.store.memfd[p].value;
      assert v.store.memfd == w.store.memfd;
    }
  }

  /** While the application runs, the pages marked dirty are exactly the private ones. */
  lemma DirtyIffPrivate(w: World, c: ClientId, p: nat)
    requires Inv(w) && c in w.clients && p < Count(w.store) && w.clients[c].app.Running?
    ensures w.clients[c].dirty[p] <==> w.clients[c].mapping[p].Private?
    ensures w.clients[c].isPrivate[p] <==> w.clients[c].dirty[p]
  {
    assert MappingOk(w.store, c, w.clients[c], p);
  }
}
