/** A console line's look (`looks.rs`, with its use in `session.rs`): parts that cover the line and
    the events they point at, read, unmasked, cut and fitted.

    Which addresses may be opened, which characters are forbidden, what the mask does to a text and
    how many bytes a look takes as JSON are parameters. */
module Looks {
  import opened LookSpans
  import opened Utf16
  import opened Wrappers

  const MAX_SPANS: nat := 64
  const MAX_EVENTS: nat := 8
  const MAX_VALUE_UNITS: nat := 256
  const MAX_HOVER_UNITS: nat := 256
  const MAX_HOVER_LINES: nat := 8
  const MAX_HOVER_SPANS: nat := 16
  const MAX_NAME_UNITS: nat := 64
  const MAX_LINE_BYTES: nat := 4096
  const MAX_LINE_CHARS: nat := 4096
  const ACTIONS: set<string> := {"run_command", "suggest_command", "open_url", "copy_to_clipboard"}

  datatype Click = Click(a: string, v: string)

  datatype Hover =
    | Text(text: string, st: Option<seq<Span>>)
    | Entity(name: string, st: Option<seq<Span>>)

  datatype LookEvent = LookEvent(click: Option<Click>, hover: Option<Hover>)

  datatype LineLooks = LineLooks(st: seq<Span>, ev: seq<LookEvent>)

  /** Which addresses may be opened (`is_https_url`) and which characters no value carries
      (`is_forbidden`). */
  datatype Rules = Rules(https: string -> bool, forbidden: char -> bool)

  // --- Renumbering -------------------------------------------------------------------------------

  type Events = seq<Option<LookEvent>>

  function Stand(ev: seq<LookEvent>): (events: Events) {
    seq(|ev|, i requires 0 <= i < |ev| => Some(ev[i]))
  }

  /** The event a part points at, if it stands. */
  function EventAt(span: Span, events: Events): Option<LookEvent> {
    if span.ev.Some? && span.ev.value < |events| then events[span.ev.value] else None
  }

  /** What part `k` of a look does. */
  function Shown(looks: LineLooks, k: nat): Option<LookEvent>
    requires k < |looks.st|
  {
    EventAt(looks.st[k], Stand(looks.ev))
  }

  ghost predicate Used(spans: seq<Span>, i: nat) {
    exists k :: 0 <= k < |spans| && spans[k].ev == Some(i)
  }

  ghost predicate Stays(spans: seq<Span>, events: Events, i: nat) {
    i < |events| && events[i].Some? && Used(spans, i)
  }

  /** The first `n` events that stay. */
  ghost function Kept(spans: seq<Span>, events: Events, n: nat): seq<LookEvent>
    requires n <= |events|
  {
    if n == 0 then []
    else Kept(spans, events, n - 1) + (if Stays(spans, events, n - 1) then [events[n - 1].value] else [])
  }

  ghost function NewPlace(spans: seq<Span>, events: Events, i: nat): Option<nat> {
    if Stays(spans, events, i) then Some(|Kept(spans, events, i)|) else None
  }

  ghost function Repointed(spans: seq<Span>, events: Events, span: Span): Span {
    span.(ev := if span.ev.Some? then NewPlace(spans, events, span.ev.value) else None)
  }

  ghost function Renumbered(spans: seq<Span>, events: Events): LineLooks {
    LineLooks(seq(|spans|, k requires 0 <= k < |spans| => Repointed(spans, events, spans[k])),
              Kept(spans, events, |events|))
  }

  /** `renumber`. */
  method Renumber(spans: seq<Span>, events: Events) returns (looks: LineLooks)
    ensures looks == Renumbered(spans, events)
  {
    var used := MarkUsed(spans, events);
    var places: seq<Option<nat>> := seq(|events|, _ => None);
    var kept: seq<LookEvent> := [];
    for i := 0 to |events|
      invariant |places| == |events| && kept == Kept(spans, events, i)
      invariant forall j :: 0 <= j < i ==> places[j] == NewPlace(spans, events, j)
      invariant forall j :: i <= j < |events| ==> places[j] == None
    {
      if events[i].Some? && used[i] {
        places := places[i := Some(|kept|)];
        kept := kept + [events[i].value];
      }
    }
    var st: seq<Span> := [];
    for k := 0 to |spans|
      invariant |st| == k && forall j :: 0 <= j < k ==> st[j] == Repointed(spans, events, spans[j])
    {
      var ev := spans[k].ev;
      st := st + [spans[k].(ev := if ev.Some? && ev.value < |places| then places[ev.value] else None)];
    }
    looks := LineLooks(st, kept);
  }

  method MarkUsed(spans: seq<Span>, events: Events) returns (used: seq<bool>)
    ensures |used| == |events| && forall i :: 0 <= i < |events| ==> (used[i] <==> Stays(spans, events, i))
  {
    used := seq(|events|, _ => false);
    for k := 0 to |spans|
      invariant |used| == |events|
      invariant forall i :: 0 <= i < |events| ==>
        (used[i] <==> events[i].Some? && exists j :: 0 <= j < k && spans[j].ev == Some(i))
    {
      var ev := spans[k].ev;
      if ev.Some? && ev.value < |events| && events[ev.value].Some? {
        used := used[ev.value := true];
      }
    }
  }

  lemma {:induction false} KeptPlace(spans: seq<Span>, events: Events, i: nat, n: nat)
    requires i < n <= |events| && Stays(spans, events, i)
    ensures |Kept(spans, events, i)| < |Kept(spans, events, n)|
    ensures Kept(spans, events, n)[|Kept(spans, events, i)|] == events[i].value
  {
    if i < n - 1 { KeptPlace(spans, events, i, n - 1); }
  }

  lemma {:induction false} KeptFrom(spans: seq<Span>, events: Events, j: nat, n: nat) returns (i: nat)
    requires n <= |events| && j < |Kept(spans, events, n)|
    ensures i < n && Stays(spans, events, i) && |Kept(spans, events, i)| == j
  {
    if j < |Kept(spans, events, n - 1)| {
      i := KeptFrom(spans, events, j, n - 1);
    } else {
      i := n - 1;
    }
  }

  lemma {:induction false} KeptCount(spans: seq<Span>, events: Events, n: nat)
    requires n <= |events|
    ensures |Kept(spans, events, n)| <= n
  {
    if n > 0 { KeptCount(spans, events, n - 1); }
  }

  /** Every event index is one, and every event is pointed at. */
  ghost predicate Numbered(looks: LineLooks) {
    && (forall k :: 0 <= k < |looks.st| && looks.st[k].ev.Some? ==> looks.st[k].ev.value < |looks.ev|)
    && (forall j :: 0 <= j < |looks.ev| ==> Used(looks.st, j))
  }

  /** The same lengths and codes. */
  ghost predicate SameParts(a: seq<Span>, b: seq<Span>) {
    |a| == |b| && forall k :: 0 <= k < |a| ==> a[k].units == b[k].units && a[k].code == b[k].code
  }

  /** Renumbering keeps what every part does: the event it pointed at, or none if that one went. */
  lemma RenumberMeans(spans: seq<Span>, events: Events)
    ensures var r := Renumbered(spans, events);
      && SameParts(r.st, spans) && Numbered(r) && |r.ev| <= |events|
      && forall k :: 0 <= k < |spans| ==> Shown(r, k) == EventAt(spans[k], events)
  {
    var r := Renumbered(spans, events);
    KeptCount(spans, events, |events|);
    forall k | 0 <= k < |spans|
      ensures Shown(r, k) == EventAt(spans[k], events)
      ensures r.st[k].ev.Some? ==> r.st[k].ev.value < |r.ev|
    {
      if spans[k].ev.Some? && Stays(spans, events, spans[k].ev.value) {
        KeptPlace(spans, events, spans[k].ev.value, |events|);
      }
    }
    forall j | 0 <= j < |r.ev| ensures Used(r.st, j) {
      var i := KeptFrom(spans, events, j, |events|);
      var k :| 0 <= k < |spans| && spans[k].ev == Some(i);
      assert r.st[k].ev == Some(j);
    }
  }

  /** The events renumbering keeps are those that stand and are pointed at, in their order. */
  lemma RenumberKeeps(spans: seq<Span>, events: Events, event: LookEvent)
    ensures event in Renumbered(spans, events).ev <==>
      exists k :: 0 <= k < |spans| && EventAt(spans[k], events) == Some(event)
  {
    var r := Renumbered(spans, events);
    RenumberMeans(spans, events);
    if event in r.ev {
      var j :| 0 <= j < |r.ev| && r.ev[j] == event;
      assert Used(r.st, j);
      var k :| 0 <= k < |r.st| && r.st[k].ev == Some(j);
      assert Shown(r, k) == Some(event);
    }
    if k :| 0 <= k < |spans| && EventAt(spans[k], events) == Some(event) {
      assert Shown(r, k) == Some(event);
    }
  }

  lemma {:induction false} KeptAll(looks: LineLooks, n: nat)
    requires Numbered(looks) && n <= |looks.ev|
    ensures Kept(looks.st, Stand(looks.ev), n) == looks.ev[..n]
  {
    if n > 0 { KeptAll(looks, n - 1); }
  }

  /** Exactly the looks in order stay as they are. */
  lemma RenumberStays(looks: LineLooks)
    ensures Renumbered(looks.st, Stand(looks.ev)) == looks <==> Numbered(looks)
  {
    RenumberMeans(looks.st, Stand(looks.ev));
    if Numbered(looks) {
      KeptAll(looks, |looks.ev|);
      var r := Renumbered(looks.st, Stand(looks.ev));
      forall k | 0 <= k < |looks.st| ensures r.st[k] == looks.st[k] {
        if looks.st[k].ev.Some? { KeptAll(looks, looks.st[k].ev.value); }
      }
      assert r.ev == looks.ev[..|looks.ev|] == looks.ev;
    }
  }

  // --- Events ------------------------------------------------------------------------------------

  ghost predicate PlainValue(rules: Rules, value: string, max: nat) {
    1 <= Units(value) <= max && forall i :: 0 <= i < |value| ==> !rules.forbidden(value[i])
  }

  /** `click_fits`. */
  ghost predicate ClickFits(rules: Rules, a: string, v: string) {
    && a in ACTIONS && PlainValue(rules, v, MAX_VALUE_UNITS)
    && (a == "run_command" ==> v != [] && v[0] == '/' && Units(v) >= 2)
    && (a == "open_url" ==> rules.https(v))
  }

  function Lines(text: string): nat {
    if text == [] then 1 else (if text[0] == '\n' then 1 else 0) + Lines(text[1..])
  }

  ghost predicate HoverTextFits(rules: Rules, text: string) {
    && 0 < Units(text) <= MAX_HOVER_UNITS && Lines(text) <= MAX_HOVER_LINES
    && forall i :: 0 <= i < |text| && text[i] != '\n' ==> !rules.forbidden(text[i])
  }

  ghost predicate HoverOk(rules: Rules, hover: Hover) {
    match hover
    case Text(text, st) =>
      HoverTextFits(rules, text) && (st.Some? ==> SpansOk(st.value, text, MAX_HOVER_SPANS, 0))
    case Entity(name, st) =>
      PlainValue(rules, name, MAX_NAME_UNITS) && (st.Some? ==> SpansOk(st.value, name, MAX_HOVER_SPANS, 0))
  }

  ghost predicate EventOk(rules: Rules, event: LookEvent) {
    && (event.click.Some? || event.hover.Some?)
    && (event.click.Some? ==> ClickFits(rules, event.click.value.a, event.click.value.v))
    && (event.hover.Some? ==> HoverOk(rules, event.hover.value))
  }

  function Get(fields: map<string, Json>, key: string): Option<Json> {
    if key in fields then Some(fields[key]) else None
  }

  /** `read_click`. */
  ghost function ReadClick(rules: Rules, value: Json): Option<Click> {
    if !value.Obj? then None
    else match (Get(value.fields, "a"), Get(value.fields, "v"))
      case (Some(Str(a)), Some(Str(v))) => if ClickFits(rules, a, v) then Some(Click(a, v)) else None
      case (_, _) => None
  }

  ghost function ReadHoverSpans(fields: map<string, Json>, text: string): Option<seq<Span>> {
    match Get(fields, "st")
    case Some(st) => SpansOf(st, text, MAX_HOVER_SPANS, 0)
    case None => None
  }

  /** `read_hover`. */
  ghost function ReadHover(rules: Rules, value: Json): Option<Hover> {
    if !value.Obj? then None
    else match Get(value.fields, "text")
      case Some(Str(text)) =>
        if HoverTextFits(rules, text) then Some(Text(text, ReadHoverSpans(value.fields, text))) else None
      case Some(_) => None
      case None =>
        match Get(value.fields, "entity")
        case Some(Obj(entity)) => ReadEntity(rules, entity)
        case _ => None
  }

  ghost function ReadEntity(rules: Rules, entity: map<string, Json>): Option<Hover> {
    match Get(entity, "name")
    case Some(Str(name)) =>
      if PlainValue(rules, name, MAX_NAME_UNITS) then Some(Entity(name, ReadHoverSpans(entity, name))) else None
    case _ => None
  }

  /** `read_event`. */
  ghost function ReadEvent(rules: Rules, value: Json): Option<LookEvent> {
    if !value.Obj? then None
    else
      var click := match Get(value.fields, "click") case Some(c) => ReadClick(rules, c) case None => None;
      var hover := match Get(value.fields, "hover") case Some(h) => ReadHover(rules, h) case None => None;
      if click.Some? || hover.Some? then Some(LookEvent(click, hover)) else None
  }

  function ClickJson(click: Click): Json { Obj(map["a" := Str(click.a), "v" := Str(click.v)]) }

  function StField(st: Option<seq<Span>>): map<string, Json> {
    match st case Some(spans) => map["st" := SpansJson(spans)] case None => map[]
  }

  function HoverJson(hover: Hover): Json {
    match hover
    case Text(text, st) => Obj(map["text" := Str(text)] + StField(st))
    case Entity(name, st) => Obj(map["entity" := Obj(map["name" := Str(name)] + StField(st))])
  }

  function EventJson(event: LookEvent): Json {
    Obj((match event.click case Some(click) => map["click" := ClickJson(click)] case None => map[])
      + (match event.hover case Some(hover) => map["hover" := HoverJson(hover)] case None => map[]))
  }

  /** `events_json`. */
  function EventsJson(events: seq<LookEvent>): Json {
    Arr(seq(|events|, i requires 0 <= i < |events| => EventJson(events[i])))
  }

  /** What reads is right. */
  lemma ReadEventOk(rules: Rules, value: Json)
    ensures ReadEvent(rules, value).Some? ==> EventOk(rules, ReadEvent(rules, value).value)
  {
  }

  lemma HoverReadsBack(rules: Rules, hover: Hover)
    requires HoverOk(rules, hover)
    ensures ReadHover(rules, HoverJson(hover)) == Some(hover)
  {
    match hover {
      case Text(text, st) =>
        if st.Some? { SpansRead(st.value, text, MAX_HOVER_SPANS, 0); }
      case Entity(name, st) =>
        if st.Some? { SpansRead(st.value, name, MAX_HOVER_SPANS, 0); }
    }
  }

  /** An event reads back from its JSON, nested hover included, exactly when it is right. */
  lemma EventReadsBack(rules: Rules, event: LookEvent)
    ensures ReadEvent(rules, EventJson(event)) == Some(event) <==> EventOk(rules, event)
  {
    ReadEventOk(rules, EventJson(event));
    if EventOk(rules, event) && event.hover.Some? {
      HoverReadsBack(rules, event.hover.value);
    }
  }

  // --- Reading a look ----------------------------------------------------------------------------

  /** A look of `text`: its parts cover it, its events are right and in order. */
  ghost predicate LooksOk(rules: Rules, looks: LineLooks, text: string, max: nat) {
    && SpansOk(looks.st, text, max, |looks.ev|)
    && |looks.ev| <= MAX_EVENTS
    && (forall j :: 0 <= j < |looks.ev| ==> EventOk(rules, looks.ev[j]))
    && Numbered(looks)
  }

  lemma {:induction false} SameWidth(a: seq<Span>, b: seq<Span>, k: nat)
    requires SameParts(a, b) && k <= |a|
    ensures Width(a[..k]) == Width(b[..k])
  {
    if k > 0 {
      SameWidth(a, b, k - 1);
      WidthNext(a, k - 1);
      WidthNext(b, k - 1);
    }
  }

  lemma SameCover(a: seq<Span>, b: seq<Span>, text: string)
    requires SameParts(a, b) && Covers(b, text)
    ensures Covers(a, text)
  {
    forall k | 0 <= k <= |a| ensures Boundary(text, Width(a[..k])) { SameWidth(a, b, k); }
    SameWidth(a, b, |a|);
    assert a[..|a|] == a && b[..|b|] == b;
  }

  /** Renumbering makes a look of parts and events that are right. */
  lemma RenumberedOk(rules: Rules, spans: seq<Span>, events: Events, text: string, max: nat, any: nat)
    requires SpansOk(spans, text, max, any) && |events| <= MAX_EVENTS
    requires forall i :: 0 <= i < |events| && events[i].Some? ==> EventOk(rules, events[i].value)
    ensures LooksOk(rules, Renumbered(spans, events), text, max)
  {
    var r := Renumbered(spans, events);
    RenumberMeans(spans, events);
    SameCover(r.st, spans, text);
    forall k | 0 <= k < |r.st| ensures SpanOk(r.st[k], |r.ev|) {
      assert SpanOk(spans[k], any);
    }
    forall j | 0 <= j < |r.ev| ensures EventOk(rules, r.ev[j]) {
      RenumberKeeps(spans, events, r.ev[j]);
    }
  }

  ghost function ReadEvents(rules: Rules, ev: Option<Json>): Events {
    match ev
    case Some(Arr(items)) =>
      if |items| <= MAX_EVENTS then seq(|items|, i requires 0 <= i < |items| => ReadEvent(rules, items[i])) else []
    case _ => []
  }

  /** `read`. */
  ghost function Read(rules: Rules, st: Option<Json>, ev: Option<Json>, text: string): Option<LineLooks> {
    if st.None? then None
    else match SpansOf(st.value, text, MAX_SPANS, MAX_EVENTS)
      case Some(spans) => Some(Renumbered(spans, ReadEvents(rules, ev)))
      case None => None
  }

  /** Whatever reads is a look of the text. */
  lemma ReadIsLook(rules: Rules, st: Option<Json>, ev: Option<Json>, text: string)
    ensures var r := Read(rules, st, ev, text); r.Some? ==> LooksOk(rules, r.value, text, MAX_SPANS)
  {
    if Read(rules, st, ev, text).Some? {
      var spans := SpansOf(st.value, text, MAX_SPANS, MAX_EVENTS).value;
      var events := ReadEvents(rules, ev);
      forall i | 0 <= i < |events| && events[i].Some? ensures EventOk(rules, events[i].value) {
        ReadEventOk(rules, ev.value.items[i]);
      }
      RenumberedOk(rules, spans, events, text, MAX_SPANS, MAX_EVENTS);
    }
  }

  /** Main theorem: a look reads back from its JSON, for a text, exactly when it is a look of it. */
  lemma LookReadsBack(rules: Rules, looks: LineLooks, text: string)
    ensures Read(rules, Some(SpansJson(looks.st)), Some(EventsJson(looks.ev)), text) == Some(looks)
       <==> LooksOk(rules, looks, text, MAX_SPANS)
  {
    ReadIsLook(rules, Some(SpansJson(looks.st)), Some(EventsJson(looks.ev)), text);
    if LooksOk(rules, looks, text, MAX_SPANS) {
      assert SpansOk(looks.st, text, MAX_SPANS, MAX_EVENTS) by {
        forall i | 0 <= i < |looks.st| ensures SpanOk(looks.st[i], MAX_EVENTS) {
          assert SpanOk(looks.st[i], |looks.ev|);
        }
      }
      SpansRead(looks.st, text, MAX_SPANS, MAX_EVENTS);
      EventsReadBack(rules, looks.ev);
      RenumberStays(looks);
    }
  }

  lemma EventsReadBack(rules: Rules, events: seq<LookEvent>)
    requires |events| <= MAX_EVENTS && forall j :: 0 <= j < |events| ==> EventOk(rules, events[j])
    ensures ReadEvents(rules, Some(EventsJson(events))) == Stand(events)
  {
    forall j | 0 <= j < |events| ensures ReadEvent(rules, EventJson(events[j])) == Some(events[j]) {
      EventReadsBack(rules, events[j]);
    }
    assert |EventsJson(events).items| == |events|;
    var read := ReadEvents(rules, Some(EventsJson(events)));
    forall j | 0 <= j < |events| ensures read[j] == Some(events[j]) {
      assert EventsJson(events).items[j] == EventJson(events[j]);
    }
  }

  // --- Keeping secrets out -----------------------------------------------------------------------

  type Mask = string -> string

  /** The mask changes nothing the event says. */
  predicate Clean(event: LookEvent, mask: Mask) {
    && (event.click.Some? ==> mask(event.click.value.v) == event.click.value.v)
    && match event.hover
       case None => true
       case Some(Text(text, _)) => mask(text) == text
       case Some(Entity(name, _)) => mask(name) == name
  }

  /** All the event says. */
  function Said(event: LookEvent): set<string> {
    (if event.click.Some? then {event.click.value.v} else {})
    + (match event.hover
       case None => {}
       case Some(Text(text, _)) => {text}
       case Some(Entity(name, _)) => {name})
  }

  lemma CleanMeans(event: LookEvent, mask: Mask)
    ensures Clean(event, mask) <==> forall said :: said in Said(event) ==> mask(said) == said
  {
    if event.click.Some? { assert event.click.value.v in Said(event); }
    match event.hover
    case None =>
    case Some(Text(text, _)) => assert text in Said(event);
    case Some(Entity(name, _)) => assert name in Said(event);
  }

  function CleanEvents(ev: seq<LookEvent>, mask: Mask): Events {
    seq(|ev|, i requires 0 <= i < |ev| => if Clean(ev[i], mask) then Some(ev[i]) else None)
  }

  /** `unmask`. */
  ghost function Unmask(looks: LineLooks, mask: Mask): LineLooks {
    Renumbered(looks.st, CleanEvents(looks.ev, mask))
  }

  /** Every part keeps its event unless the mask touches it, and no event is left that it does. */
  lemma UnmaskMeans(rules: Rules, looks: LineLooks, text: string, max: nat, mask: Mask)
    requires LooksOk(rules, looks, text, max)
    ensures var r := Unmask(looks, mask);
      && LooksOk(rules, r, text, max) && SameParts(r.st, looks.st)
      && (forall k :: 0 <= k < |looks.st| ==>
            Shown(r, k) == var e := Shown(looks, k); if e.Some? && Clean(e.value, mask) then e else None)
      && (forall j :: 0 <= j < |r.ev| ==> Clean(r.ev[j], mask))
  {
    var events := CleanEvents(looks.ev, mask);
    var r := Unmask(looks, mask);
    RenumberMeans(looks.st, events);
    RenumberedOk(rules, looks.st, events, text, max, |looks.ev|);
    forall j | 0 <= j < |r.ev| ensures Clean(r.ev[j], mask) {
      RenumberKeeps(looks.st, events, r.ev[j]);
    }
  }

  // --- Cutting -----------------------------------------------------------------------------------

  const ELLIPSIS: Span := Span(1, "", None)

  /** The parts up to `kept` units, the one across the cut shortened and without its event. */
  function CutParts(spans: seq<Span>, kept: nat): seq<Span> {
    if spans == [] then []
    else
      var before, last := spans[..|spans| - 1], spans[|spans| - 1];
      var at := Width(before);
      if at >= kept then CutParts(before, kept)
      else CutParts(before, kept) + [if at + last.units <= kept then last else Span(kept - at, last.code, None)]
  }

  ghost function CutLook(looks: LineLooks, kept: nat): LineLooks {
    Renumbered(CutParts(looks.st, kept) + [ELLIPSIS], Stand(looks.ev))
  }

  /** `cut`. */
  method Cut(looks: LineLooks, kept: nat) returns (out: LineLooks)
    ensures out == CutLook(looks, kept)
  {
    var st: seq<Span> := [];
    var at := 0;
    var k := 0;
    while k < |looks.st| && at < kept
      invariant 0 <= k <= |looks.st| && at == Width(looks.st[..k])
      invariant st == CutParts(looks.st[..k], kept)
    {
      var span := looks.st[k];
      var end := at + span.units;
      WidthNext(looks.st, k);
      assert looks.st[..k + 1][..k] == looks.st[..k];
      if end <= kept {
        st := st + [span];
      } else {
        st := st + [Span(kept - at, span.code, None)];
      }
      at := end;
      k := k + 1;
    }
    CutEnds(looks.st, kept, k);
    st := st + [ELLIPSIS];
    out := Renumber(st, Stand(looks.ev));
  }

  /** Nothing is kept of the parts behind the cut. */
  lemma {:induction false} CutEnds(spans: seq<Span>, kept: nat, k: nat)
    requires k <= |spans| && (k == |spans| || Width(spans[..k]) >= kept)
    ensures CutParts(spans[..k], kept) == CutParts(spans, kept)
    decreases |spans|
  {
    if k < |spans| {
      var before := spans[..|spans| - 1];
      assert before[..k] == spans[..k];
      WidthGrows(spans, k, |spans| - 1);
      if k < |before| { CutEnds(before, kept, k); } else { assert before[..k] == before; }
    } else {
      assert spans[..k] == spans;
    }
  }

  /** The parts that are left are those that begin before the cut. */
  lemma {:induction false} CutLeaves(spans: seq<Span>, kept: nat, k: nat)
    requires k < |spans|
    ensures k < |CutParts(spans, kept)| <==> Width(spans[..k]) < kept
  {
    var n := |spans| - 1;
    var before := spans[..n];
    CutSize(before, kept);
    if k < n {
      assert before[..k] == spans[..k];
      WidthGrows(spans, k, n);
      CutLeaves(before, kept, k);
    } else {
      assert spans[..k] == before;
      if Width(before) < kept { CutAll(before, kept); }
    }
  }

  /** Part `k` after the cut. */
  lemma {:induction false} CutPart(spans: seq<Span>, kept: nat, k: nat)
    requires k < |CutParts(spans, kept)|
    ensures k < |spans| && Width(spans[..k]) < kept
    ensures CutParts(spans, kept)[k] == if Width(spans[..k + 1]) <= kept then spans[k]
      else Span(kept - Width(spans[..k]), spans[k].code, None)
  {
    CutSize(spans, kept);
    CutLeaves(spans, kept, k);
    WidthNext(spans, k);
    var before := spans[..|spans| - 1];
    if k < |CutParts(before, kept)| {
      CutPart(before, kept, k);
      assert before[..k] == spans[..k] && before[..k + 1] == spans[..k + 1];
    } else {
      CutAll(before, kept);
      assert spans[..k] == before;
    }
  }

  lemma {:induction false} CutSize(spans: seq<Span>, kept: nat)
    ensures |CutParts(spans, kept)| <= |spans|
  {
    if spans != [] { CutSize(spans[..|spans| - 1], kept); }
  }

  /** Before the cut every part is there. */
  lemma {:induction false} CutAll(spans: seq<Span>, kept: nat)
    requires Width(spans) < kept
    ensures CutParts(spans, kept) == spans
  {
    if spans != [] {
      var n := |spans| - 1;
      CutAll(spans[..n], kept);
      LastPart(spans, n);
    }
  }

  lemma LastPart(spans: seq<Span>, n: nat)
    requires |spans| == n + 1
    ensures spans == spans[..n] + [spans[n]]
  {
  }

  /** What is kept of the first `k` parts is as wide as they are, up to the cut. */
  lemma {:induction false} CutWidth(spans: seq<Span>, kept: nat)
    ensures Width(CutParts(spans, kept)) == if Width(spans) <= kept then Width(spans) else kept
  {
    if spans != [] {
      var before := spans[..|spans| - 1];
      CutWidth(before, kept);
      var cut := CutParts(spans, kept);
      if Width(before) < kept {
        assert cut[..|cut| - 1] == CutParts(before, kept);
      }
    }
  }

  lemma {:induction false} CutPrefix(spans: seq<Span>, kept: nat, k: nat)
    requires k <= |CutParts(spans, kept)|
    ensures k <= |spans| && CutParts(spans, kept)[..k] == CutParts(spans[..k], kept)
  {
    CutSize(spans, kept);
    if k < |spans| {
      var before := spans[..|spans| - 1];
      assert before[..k] == spans[..k];
      if Width(before) < kept { CutAll(before, kept); }
      CutPrefix(before, kept, k);
    } else {
      assert spans[..k] == spans && CutParts(spans, kept)[..k] == CutParts(spans, kept);
    }
  }

  /** What is left of the text. */
  function CutText(text: string, i: nat): string
    requires i <= |text|
  {
    text[..i] + "\U{2026}"
  }

  lemma CutTextUnits(text: string, i: nat)
    requires i <= |text|
    ensures Units(CutText(text, i)) == Units(text[..i]) + 1
  {
    UnitsNext(CutText(text, i), i);
    assert CutText(text, i)[..i] == text[..i] && CutText(text, i)[..i + 1] == CutText(text, i);
  }

  /** A boundary of the text, or the cut if that comes first, is one of what is left. */
  lemma BoundaryCut(text: string, i: nat, at: nat)
    requires Boundary(text, at) && i <= |text|
    ensures Boundary(CutText(text, i), if at <= Units(text[..i]) then at else Units(text[..i]))
  {
    assert text == text[..i] + text[i..] && text[..i][..i] == text[..i];
    var cut := if at <= Units(text[..i]) then at else Units(text[..i]);
    if at <= Units(text[..i]) { BoundaryWithin(text[..i], text[i..], at); }
    assert Boundary(text[..i], cut);
    BoundaryKept(text[..i], "\U{2026}", cut);
  }

  lemma CutBoundary(spans: seq<Span>, text: string, i: nat, kept: nat, k: nat)
    requires Covers(spans, text) && i <= |text| && kept == Units(text[..i]) && k <= |CutParts(spans, kept)|
    ensures Boundary(CutText(text, i), Width(CutParts(spans, kept)[..k]))
  {
    CutPrefix(spans, kept, k);
    CutWidth(spans[..k], kept);
    BoundaryCut(text, i, Width(spans[..k]));
  }

  lemma CutWide(spans: seq<Span>, text: string, i: nat)
    requires Covers(spans, text) && i <= |text|
    ensures Width(CutParts(spans, Units(text[..i])) + [ELLIPSIS]) == Units(CutText(text, i))
  {
    var cut := CutParts(spans, Units(text[..i]));
    CutWidth(spans, Units(text[..i]));
    UnitsGrow(text, i, |text|);
    assert text[..|text|] == text;
    WidthAfter(cut, ELLIPSIS);
    CutTextUnits(text, i);
  }

  lemma WholeIsBoundary(text: string)
    ensures Boundary(text, Units(text))
  {
    assert text[..|text|] == text;
  }

  lemma CutCoversTo(spans: seq<Span>, text: string, i: nat, k: nat)
    requires Covers(spans, text) && i <= |text| && k <= |CutParts(spans, Units(text[..i]))| + 1
    ensures Boundary(CutText(text, i), Width((CutParts(spans, Units(text[..i])) + [ELLIPSIS])[..k]))
  {
    var kept := Units(text[..i]);
    FirstOf(CutParts(spans, kept), ELLIPSIS, k);
    if k <= |CutParts(spans, kept)| {
      CutBoundary(spans, text, i, kept, k);
    } else {
      CutWide(spans, text, i);
      WholeIsBoundary(CutText(text, i));
    }
  }

  lemma CutCovers(spans: seq<Span>, text: string, i: nat)
    requires Covers(spans, text) && i <= |text|
    ensures Covers(CutParts(spans, Units(text[..i])) + [ELLIPSIS], CutText(text, i))
  {
    var st := CutParts(spans, Units(text[..i])) + [ELLIPSIS];
    CutWide(spans, text, i);
    forall k | 0 <= k <= |st| ensures Boundary(CutText(text, i), Width(st[..k])) {
      CutCoversTo(spans, text, i, k);
    }
  }

  lemma CutPartsOk(spans: seq<Span>, kept: nat, events: nat)
    requires forall k :: 0 <= k < |spans| ==> SpanOk(spans[k], events)
    ensures forall k :: 0 <= k < |CutParts(spans, kept)| ==> SpanOk(CutParts(spans, kept)[k], events)
  {
    CutSize(spans, kept);
    forall k | 0 <= k < |CutParts(spans, kept)| ensures SpanOk(CutParts(spans, kept)[k], events) {
      CutPart(spans, kept, k);
      WidthNext(spans, k);
      assert SpanOk(spans[k], events);
    }
  }

  lemma CutSpansOk(spans: seq<Span>, text: string, i: nat, kept: nat, max: nat, events: nat)
    requires SpansOk(spans, text, max, events) && i <= |text| && kept == Units(text[..i])
    ensures SpansOk(CutParts(spans, kept) + [ELLIPSIS], CutText(text, i), max + 1, events)
  {
    CutSize(spans, kept);
    CutCovers(spans, text, i);
    CutPartsOk(spans, kept, events);
    EllipsisOk(events);
    OneMoreOk(CutParts(spans, kept), ELLIPSIS, events);
  }

  lemma OneMoreOk(spans: seq<Span>, span: Span, events: nat)
    requires SpanOk(span, events) && forall k :: 0 <= k < |spans| ==> SpanOk(spans[k], events)
    ensures forall k :: 0 <= k < |spans + [span]| ==> SpanOk((spans + [span])[k], events)
  {
  }

  lemma CutOk(rules: Rules, looks: LineLooks, text: string, i: nat, max: nat)
    requires LooksOk(rules, looks, text, max) && i <= |text|
    ensures LooksOk(rules, CutLook(looks, Units(text[..i])), CutText(text, i), max + 1)
  {
    var kept := Units(text[..i]);
    CutSpansOk(looks.st, text, i, kept, max, |looks.ev|);
    RenumberedOk(rules, CutParts(looks.st, kept) + [ELLIPSIS], Stand(looks.ev), CutText(text, i), max + 1, |looks.ev|);
  }

  /** Part `k` of a look cut after `kept` units: its code stays, and its event exactly if it lost
      nothing. */
  ghost predicate CutRight(looks: LineLooks, r: LineLooks, kept: nat, k: nat) {
    && k < |looks.st| && k < |r.st| && r.st[k].code == looks.st[k].code
    && Shown(r, k) == if Width(looks.st[..k + 1]) <= kept then Shown(looks, k) else None
  }

  /** There is one part more than begin before the cut. */
  lemma CutShown(looks: LineLooks, kept: nat)
    ensures var r := CutLook(looks, kept);
      && 1 <= |r.st| <= |looks.st| + 1
      && (forall k :: 0 <= k < |looks.st| ==> (k < |r.st| - 1 <==> Width(looks.st[..k]) < kept))
      && (forall k :: 0 <= k < |r.st| - 1 ==> CutRight(looks, r, kept, k))
      && Shown(r, |r.st| - 1) == None && r.st[|r.st| - 1] == ELLIPSIS
  {
    var cut := CutParts(looks.st, kept);
    var events := Stand(looks.ev);
    var r := CutLook(looks, kept);
    CutSize(looks.st, kept);
    RenumberMeans(cut + [ELLIPSIS], events);
    forall k | 0 <= k < |looks.st| ensures k < |cut| <==> Width(looks.st[..k]) < kept { CutLeaves(looks.st, kept, k); }
    forall k | 0 <= k < |cut| ensures CutRight(looks, r, kept, k) {
      CutPart(looks.st, kept, k);
      assert Shown(r, k) == EventAt((cut + [ELLIPSIS])[k], events) == EventAt(cut[k], events);
    }
  }

  /** Main theorem: a look cut with its line is a look of the cut line. */
  lemma CutMeans(rules: Rules, looks: LineLooks, text: string, i: nat, max: nat)
    requires LooksOk(rules, looks, text, max) && i <= |text|
    ensures var kept, r := Units(text[..i]), CutLook(looks, Units(text[..i]));
      && LooksOk(rules, r, CutText(text, i), max + 1)
      && 1 <= |r.st|
      && (forall k :: 0 <= k < |looks.st| ==> (k < |r.st| - 1 <==> Width(looks.st[..k]) < kept))
      && (forall k :: 0 <= k < |r.st| - 1 ==> CutRight(looks, r, kept, k))
      && Shown(r, |r.st| - 1) == None && r.st[|r.st| - 1] == ELLIPSIS
  {
    CutOk(rules, looks, text, i, max);
    CutShown(looks, Units(text[..i]));
  }

  lemma EllipsisOk(events: nat)
    ensures SpanOk(ELLIPSIS, events)
  {
    assert Colour(""[..0]) && Flags(""[0..]);
  }

  /** A look cut with its line reads back unless it has every part there may be and all of them
      begin before the cut: then the "…" is one too many. */
  lemma CutReadsBack(rules: Rules, looks: LineLooks, text: string, i: nat)
    requires LooksOk(rules, looks, text, MAX_SPANS) && i <= |text|
    ensures var r := CutLook(looks, Units(text[..i]));
      Read(rules, Some(SpansJson(r.st)), Some(EventsJson(r.ev)), CutText(text, i)) == Some(r)
      <==> |looks.st| < MAX_SPANS || Width(looks.st[..MAX_SPANS - 1]) >= Units(text[..i])
  {
    var r := CutLook(looks, Units(text[..i]));
    CutOk(rules, looks, text, i, MAX_SPANS);
    LookReadsBack(rules, r, CutText(text, i));
    CutCount(looks, Units(text[..i]), MAX_SPANS);
  }

  lemma CutCount(looks: LineLooks, kept: nat, max: nat)
    requires 1 <= |looks.st| <= max
    ensures |CutLook(looks, kept).st| <= max <==> |looks.st| < max || Width(looks.st[..max - 1]) >= kept
  {
    CutShown(looks, kept);
  }

  function Same(n: nat): string { seq(n, _ => 'a') }

  function Ones(n: nat): seq<Span> { seq(n, _ => ELLIPSIS) }

  lemma {:induction false} SameUnits(n: nat)
    ensures Units(Same(n)) == n == Width(Ones(n))
  {
    if n > 0 {
      SameUnits(n - 1);
      assert Same(n)[1..] == Same(n - 1) && Ones(n)[..n - 1] == Ones(n - 1);
    }
  }

  lemma LongTailCovers(n: nat, m: nat)
    ensures Covers(Ones(n) + [Span(m, "", None)], Same(n + m))
    ensures (Ones(n) + [Span(m, "", None)])[..n] == Ones(n)
  {
    var st := Ones(n) + [Span(m, "", None)];
    SameUnits(n);
    SameUnits(n + m);
    assert st[..n] == Ones(n) && st[..n + 1] == st;
    forall k | 0 <= k <= n + 1 ensures Boundary(Same(n + m), Width(st[..k])) {
      var at := if k <= n then k else n + m;
      if k <= n {
        SameUnits(k);
        assert st[..k] == Ones(k);
      }
      SameBoundary(n + m, at);
    }
  }

  lemma SameBoundary(n: nat, at: nat)
    requires at <= n
    ensures Boundary(Same(n), at)
  {
    SameUnits(at);
    assert Same(n)[..at] == Same(at);
  }

  lemma LongTail(n: nat, m: nat, events: nat)
    requires 0 < m < U64_END
    ensures SpansOk(Ones(n) + [Span(m, "", None)], Same(n + m), n + 1, events)
  {
    LongTailCovers(n, m);
    EllipsisOk(events);
    OneMoreOk(Ones(n), Span(m, "", None), events);
  }

  /** There is such a look of a line that is cut. */
  lemma SomeCutDoesNotReadBack(rules: Rules) returns (looks: LineLooks, text: string)
    ensures |text| > MAX_LINE_CHARS && LooksOk(rules, looks, text, MAX_SPANS)
    ensures var r := CutLook(looks, Units(text[..MAX_LINE_CHARS]));
      Read(rules, Some(SpansJson(r.st)), Some(EventsJson(r.ev)), CutText(text, MAX_LINE_CHARS)) != Some(r)
  {
    var n := MAX_SPANS - 1;
    looks, text := LineLooks(Ones(n) + [Span(MAX_LINE_CHARS, "", None)], []), Same(n + MAX_LINE_CHARS);
    LongTail(n, MAX_LINE_CHARS, 0);
    LongTailCovers(n, MAX_LINE_CHARS);
    SameUnits(n);
    SameUnits(MAX_LINE_CHARS);
    assert text[..MAX_LINE_CHARS] == Same(MAX_LINE_CHARS);
    CutReadsBack(rules, looks, text, MAX_LINE_CHARS);
  }

  // --- Fitting -----------------------------------------------------------------------------------

  type Bytes = LineLooks -> nat

  predicate Meaningful(looks: LineLooks) {
    exists k :: 0 <= k < |looks.st| && (looks.st[k].code != "" || looks.st[k].ev.Some?)
  }

  function ClickOnly(event: LookEvent): Option<LookEvent> {
    if event.click.Some? then Some(LookEvent(event.click, None)) else None
  }

  ghost function WithoutHovers(looks: LineLooks): LineLooks {
    Renumbered(looks.st, seq(|looks.ev|, i requires 0 <= i < |looks.ev| => ClickOnly(looks.ev[i])))
  }

  function WithoutEvents(looks: LineLooks): LineLooks {
    LineLooks(seq(|looks.st|, k requires 0 <= k < |looks.st| => looks.st[k].(ev := None)), [])
  }

  function IfMeaningful(looks: LineLooks): Option<LineLooks> {
    if Meaningful(looks) then Some(looks) else None
  }

  /** `fit`. */
  ghost function Fit(looks: LineLooks, bytes: Bytes): Option<LineLooks> {
    if bytes(looks) <= MAX_LINE_BYTES then IfMeaningful(looks)
    else if bytes(WithoutHovers(looks)) <= MAX_LINE_BYTES then IfMeaningful(WithoutHovers(looks))
    else if bytes(WithoutEvents(WithoutHovers(looks))) <= MAX_LINE_BYTES
    then IfMeaningful(WithoutEvents(WithoutHovers(looks)))
    else None
  }

  /** What a part may do after fitting: the same, its click alone, or nothing. */
  predicate Less(now: Option<LookEvent>, was: Option<LookEvent>) {
    || now == was
    || now.None?
    || (was.Some? && now == ClickOnly(was.value))
  }

  /** The same parts, none doing more. */
  predicate LessLook(now: LineLooks, was: LineLooks) {
    && |now.st| == |was.st|
    && forall k :: 0 <= k < |now.st| ==>
      now.st[k].units == was.st[k].units && now.st[k].code == was.st[k].code && Less(Shown(now, k), Shown(was, k))
  }

  lemma WithoutHoversMeans(rules: Rules, looks: LineLooks, text: string, max: nat)
    requires LooksOk(rules, looks, text, max)
    ensures var r := WithoutHovers(looks);
      && LooksOk(rules, r, text, max) && SameParts(r.st, looks.st)
      && forall k :: 0 <= k < |looks.st| ==>
        Shown(r, k) == var e := Shown(looks, k); if e.Some? then ClickOnly(e.value) else None
  {
    var events: Events := seq(|looks.ev|, i requires 0 <= i < |looks.ev| => ClickOnly(looks.ev[i]));
    RenumberMeans(looks.st, events);
    RenumberedOk(rules, looks.st, events, text, max, |looks.ev|);
  }

  lemma WithoutEventsMeans(rules: Rules, looks: LineLooks, text: string, max: nat)
    requires LooksOk(rules, looks, text, max)
    ensures var r := WithoutEvents(looks);
      && LooksOk(rules, r, text, max) && SameParts(r.st, looks.st)
      && forall k :: 0 <= k < |looks.st| ==> Shown(r, k) == None
  {
    var r := WithoutEvents(looks);
    SameCover(r.st, looks.st, text);
    forall k | 0 <= k < |r.st| ensures SpanOk(r.st[k], |r.ev|) {
      assert SpanOk(looks.st[k], |looks.ev|);
    }
  }

  /** Every part shows its click alone. */
  ghost predicate OnlyClicks(now: LineLooks, was: LineLooks) {
    && SameParts(now.st, was.st)
    && forall k :: 0 <= k < |was.st| ==>
      Shown(now, k) == var e := Shown(was, k); if e.Some? then ClickOnly(e.value) else None
  }

  /** No part shows anything. */
  ghost predicate NoEvents(now: LineLooks, was: LineLooks) {
    SameParts(now.st, was.st) && forall k :: 0 <= k < |was.st| ==> Shown(now, k) == None
  }

  /** The first of the looks within the bytes. */
  ghost predicate FirstFits(choices: seq<LineLooks>, bytes: Bytes, k: nat) {
    && k < |choices| && bytes(choices[k]) <= MAX_LINE_BYTES
    && forall j :: 0 <= j < k ==> bytes(choices[j]) > MAX_LINE_BYTES
  }

  /** `kept` is the first of the looks that fits, if it shows something. */
  ghost predicate KeepsFirst(kept: Option<LineLooks>, choices: seq<LineLooks>, bytes: Bytes) {
    match kept
    case Some(r) => Meaningful(r) && exists k: nat :: FirstFits(choices, bytes, k) && choices[k] == r
    case None => forall k: nat :: FirstFits(choices, bytes, k) ==> !Meaningful(choices[k])
  }

  lemma FitFirst(looks: LineLooks, bytes: Bytes)
    ensures KeepsFirst(Fit(looks, bytes),
                       [looks, WithoutHovers(looks), WithoutEvents(WithoutHovers(looks))], bytes)
  {
    var choices := [looks, WithoutHovers(looks), WithoutEvents(WithoutHovers(looks))];
    forall k: nat ensures FirstFits(choices, bytes, k) ==>
      k < 3 && IfMeaningful(choices[k]) == Fit(looks, bytes)
    {
      if FirstFits(choices, bytes, k) {
        assert k > 0 ==> bytes(choices[0]) > MAX_LINE_BYTES;
        assert k > 1 ==> bytes(choices[1]) > MAX_LINE_BYTES;
      }
    }
    if bytes(choices[0]) <= MAX_LINE_BYTES { assert FirstFits(choices, bytes, 0); }
    else if bytes(choices[1]) <= MAX_LINE_BYTES { assert FirstFits(choices, bytes, 1); }
    else if bytes(choices[2]) <= MAX_LINE_BYTES { assert FirstFits(choices, bytes, 2); }
  }

  lemma FitOk(rules: Rules, looks: LineLooks, text: string, max: nat, bytes: Bytes)
    requires LooksOk(rules, looks, text, max)
    ensures Fit(looks, bytes).Some? ==>
      var r := Fit(looks, bytes).value;
      LooksOk(rules, r, text, max) && bytes(r) <= MAX_LINE_BYTES && Meaningful(r) && LessLook(r, looks)
  {
    FitChoices(rules, looks, text, max);
  }

  /** Fitting keeps a look of the line within the bytes, with every part's length and code and no
      event a part had not. As much as can be is kept: the look itself if it fits, else the one with
      every click and nothing else, else the bare parts, each only if it shows something. */
  lemma FitMeans(rules: Rules, looks: LineLooks, text: string, max: nat, bytes: Bytes)
    requires LooksOk(rules, looks, text, max)
    ensures Fit(looks, bytes).Some? ==>
      var r := Fit(looks, bytes).value;
      LooksOk(rules, r, text, max) && bytes(r) <= MAX_LINE_BYTES && Meaningful(r) && LessLook(r, looks)
    ensures exists clicks, bare ::
      && OnlyClicks(clicks, looks) && NoEvents(bare, looks)
      && KeepsFirst(Fit(looks, bytes), [looks, clicks, bare], bytes)
  {
    FitOk(rules, looks, text, max, bytes);
    FitFirst(looks, bytes);
    WithoutHoversMeans(rules, looks, text, max);
    WithoutEventsMeans(rules, WithoutHovers(looks), text, max);
    assert OnlyClicks(WithoutHovers(looks), looks);
    assert NoEvents(WithoutEvents(WithoutHovers(looks)), looks);
  }

  lemma FitChoices(rules: Rules, looks: LineLooks, text: string, max: nat)
    requires LooksOk(rules, looks, text, max)
    ensures LessLook(looks, looks)
    ensures LooksOk(rules, WithoutHovers(looks), text, max) && LessLook(WithoutHovers(looks), looks)
    ensures LooksOk(rules, WithoutEvents(WithoutHovers(looks)), text, max)
    ensures LessLook(WithoutEvents(WithoutHovers(looks)), looks)
  {
    WithoutHoversMeans(rules, looks, text, max);
    WithoutEventsMeans(rules, WithoutHovers(looks), text, max);
  }

  // --- The look the console keeps ----------------------------------------------------------------

  /** `cap_line`. */
  function CapLine(text: string): string {
    if |text| > MAX_LINE_CHARS then CutText(text, MAX_LINE_CHARS) else text
  }

  /** `cut_units`. */
  function CutUnits(text: string): Option<nat> {
    if |text| > MAX_LINE_CHARS then Some(Units(text[..MAX_LINE_CHARS])) else None
  }

  /** The look `append_line` keeps of a line; `normal` says how the line was classified. */
  ghost function ConsoleLook(raw: string, normal: bool, look: LineLooks, mask: Mask, bytes: Bytes): Option<LineLooks> {
    if !normal || mask(raw) != raw then None
    else Fit(CutIfLong(raw, Unmask(look, mask)), bytes)
  }

  ghost function CutIfLong(raw: string, look: LineLooks): LineLooks {
    match CutUnits(raw)
    case Some(kept) => CutLook(look, kept)
    case None => look
  }

  /** The parts end before the cut, or there is none. */
  predicate Whole(raw: string, look: LineLooks, k: nat)
    requires k < |look.st|
  {
    CutUnits(raw).None? || Width(look.st[..k + 1]) <= CutUnits(raw).value
  }

  /** Part `k` of what is kept: the code it had, and its event or less if it is whole. */
  ghost predicate PartKept(raw: string, look: LineLooks, r: LineLooks, k: nat) {
    && k < |look.st| && k < |r.st| && r.st[k].code == look.st[k].code
    && Less(Shown(r, k), if Whole(raw, look, k) then Shown(look, k) else None)
  }

  /** The part is one of the look's, not the "…" of the cut. */
  predicate OwnPart(raw: string, r: LineLooks, k: nat) {
    k < |r.st| && (CutUnits(raw).None? || k < |r.st| - 1)
  }

  /** Part `k` of the look cut if its line is: its code, and its event exactly if it is whole. */
  ghost predicate PartCut(raw: string, look: LineLooks, r: LineLooks, k: nat) {
    && k < |look.st| && k < |r.st| && r.st[k].code == look.st[k].code
    && Shown(r, k) == if Whole(raw, look, k) then Shown(look, k) else None
  }

  lemma CutIfLongMeans(rules: Rules, raw: string, look: LineLooks)
    requires LooksOk(rules, look, raw, MAX_SPANS)
    ensures var r := CutIfLong(raw, look);
      && LooksOk(rules, r, CapLine(raw), MAX_SPANS + 1)
      && (forall k: nat :: OwnPart(raw, r, k) ==> PartCut(raw, look, r, k))
      && (CutUnits(raw).Some? ==> Shown(r, |r.st| - 1) == None)
  {
    var units := CutUnits(raw);
    if units.Some? {
      CutOk(rules, look, raw, MAX_LINE_CHARS, MAX_SPANS);
      CutShown(look, units.value);
      forall k: nat | OwnPart(raw, CutIfLong(raw, look), k) ensures PartCut(raw, look, CutIfLong(raw, look), k) {
        assert CutRight(look, CutLook(look, units.value), units.value, k);
      }
    }
  }

  lemma KeptPart(raw: string, look: LineLooks, clean: LineLooks, cut: LineLooks, r: LineLooks, k: nat, mask: Mask)
    requires SameParts(clean.st, look.st) && SameParts(r.st, cut.st)
    requires k < |look.st| ==>
      Shown(clean, k) == None || (Shown(clean, k) == Shown(look, k) && Clean(Shown(look, k).value, mask))
    requires k < |cut.st| && Less(Shown(r, k), Shown(cut, k))
    requires OwnPart(raw, cut, k) ==> PartCut(raw, clean, cut, k)
    requires !OwnPart(raw, cut, k) ==> Shown(cut, k) == None
    ensures Shown(r, k).Some? ==> Clean(Shown(r, k).value, mask)
    ensures OwnPart(raw, r, k) ==> PartKept(raw, look, r, k)
  {
    if k < |look.st| { SameWidth(clean.st, look.st, k + 1); }
  }

  lemma KeptLook(rules: Rules, look: LineLooks, raw: string, mask: Mask, bytes: Bytes)
    requires LooksOk(rules, look, raw, MAX_SPANS) && Fit(CutIfLong(raw, Unmask(look, mask)), bytes).Some?
    ensures var r := Fit(CutIfLong(raw, Unmask(look, mask)), bytes).value;
      && LooksOk(rules, r, CapLine(raw), MAX_SPANS + 1) && bytes(r) <= MAX_LINE_BYTES
      && (forall k :: 0 <= k < |r.st| ==> Shown(r, k).Some? ==> Clean(Shown(r, k).value, mask))
      && (forall k: nat :: OwnPart(raw, r, k) ==> PartKept(raw, look, r, k))
  {
    var clean := Unmask(look, mask);
    var cut := CutIfLong(raw, clean);
    var r := Fit(cut, bytes).value;
    UnmaskMeans(rules, look, raw, MAX_SPANS, mask);
    CutIfLongMeans(rules, raw, clean);
    FitOk(rules, cut, CapLine(raw), MAX_SPANS + 1, bytes);
    forall k | 0 <= k < |r.st|
      ensures Shown(r, k).Some? ==> Clean(Shown(r, k).value, mask)
      ensures OwnPart(raw, r, k) ==> PartKept(raw, look, r, k)
    {
      KeptPart(raw, look, clean, cut, r, k, mask);
    }
  }

  /** Main theorem: whatever look a client sends, what the console keeps of it covers the line it
      keeps, within the bytes; it says nothing the mask changes; and every part has its code of the
      look that was read, and its event or less if the part is whole. */
  lemma ConsoleLookMeans(rules: Rules, st: Option<Json>, ev: Option<Json>, raw: string, normal: bool,
      mask: Mask, bytes: Bytes)
    ensures var look := Read(rules, st, ev, raw);
      look.Some? && ConsoleLook(raw, normal, look.value, mask, bytes).Some? ==>
        var r := ConsoleLook(raw, normal, look.value, mask, bytes).value;
        && normal && mask(raw) == raw
        && LooksOk(rules, r, CapLine(raw), MAX_SPANS + 1) && bytes(r) <= MAX_LINE_BYTES
        && (forall k :: 0 <= k < |r.st| ==> Shown(r, k).Some? ==> Clean(Shown(r, k).value, mask))
        && (forall k: nat :: OwnPart(raw, r, k) ==> PartKept(raw, look.value, r, k))
  {
    var read := Read(rules, st, ev, raw);
    if read.Some? && ConsoleLook(raw, normal, read.value, mask, bytes).Some? {
      ReadIsLook(rules, st, ev, raw);
      KeptLook(rules, read.value, raw, mask, bytes);
    }
  }

  /** A line that is not as it came keeps no look; of any other the look is cut with the line and
      cleared of what the mask touches, and as much of that is kept as fits. */
  lemma ConsoleLookIs(rules: Rules, look: LineLooks, raw: string, normal: bool, mask: Mask, bytes: Bytes)
    requires LooksOk(rules, look, raw, MAX_SPANS)
    ensures !normal || mask(raw) != raw ==> ConsoleLook(raw, normal, look, mask, bytes) == None
    ensures normal && mask(raw) == raw ==>
      exists clicks, bare ::
        && OnlyClicks(clicks, CutIfLong(raw, Unmask(look, mask))) && NoEvents(bare, CutIfLong(raw, Unmask(look, mask)))
        && KeepsFirst(ConsoleLook(raw, normal, look, mask, bytes),
                      [CutIfLong(raw, Unmask(look, mask)), clicks, bare], bytes)
  {
    UnmaskMeans(rules, look, raw, MAX_SPANS, mask);
    CutIfLongMeans(rules, raw, Unmask(look, mask));
    FitMeans(rules, CutIfLong(raw, Unmask(look, mask)), CapLine(raw), MAX_SPANS + 1, bytes);
  }

  /** Main theorem: a look that says nothing the mask changes, fits, shows something and is of a line
      that is as it came and not cut, is kept as it is. */
  lemma CleanLookStays(rules: Rules, look: LineLooks, raw: string, mask: Mask, bytes: Bytes)
    requires LooksOk(rules, look, raw, MAX_SPANS) && |raw| <= MAX_LINE_CHARS && mask(raw) == raw
    requires forall j :: 0 <= j < |look.ev| ==> Clean(look.ev[j], mask)
    requires Meaningful(look) && bytes(look) <= MAX_LINE_BYTES
    ensures ConsoleLook(raw, true, look, mask, bytes) == Some(look)
  {
    assert CleanEvents(look.ev, mask) == Stand(look.ev);
    RenumberStays(look);
  }
}
