/** The timer-change detector of the content script (`TimerMonitor`).

    The DOM is an input: a `Dom` value lists the elements the monitor can see
    (by an identity key), what `getElementById` and `querySelectorAll` return,
    and for each element its text, computed background, whether it is still
    attached to the document and the computed backgrounds of its ancestors.
    Observers and the poll interval are recorded as data; their firing is an
    explicit step (`Tick`, `DocumentMutation`), and every invocation of the
    registered callback is returned as a `Delivery`. */
module Monitor {
  import opened Wrappers
  import opened Text

  /** Identity of a DOM element (JavaScript `===` on element references). */
  type NodeKey = nat

  /** What the monitor reads from one element. */
  datatype Node = Node(
    htmlId: string,
    textContent: string,
    innerText: string,
    /** `getComputedStyle(el).backgroundColor` */
    background: string,
    /** `el === document.body` */
    isBody: bool,
    /** `el.isConnected` */
    connected: bool,
    /** the computed backgrounds of `el.parentElement`, its parent, ..., up to `<html>` */
    ancestorBackgrounds: seq<string>)

  /** The page as the monitor sees it at one instant. */
  datatype Dom = Dom(
    nodes: map<NodeKey, Node>,
    /** `document.getElementById('timeDiv')` */
    timeDiv: Option<NodeKey>,
    /** `document.getElementById('timergrid')` */
    timerGrid: Option<NodeKey>,
    /** `document.querySelectorAll(selector)`, in document order; a missing selector matches nothing */
    query: map<string, seq<NodeKey>>)

  predicate Known(dom: Dom, k: Option<NodeKey>) {
    k.Some? ==> k.value in dom.nodes
  }

  /** Every element reference the page hands out can be read. */
  predicate WellFormed(dom: Dom) {
    && Known(dom, dom.timeDiv)
    && Known(dom, dom.timerGrid)
    && forall sel :: sel in dom.query ==> forall i :: 0 <= i < |dom.query[sel]| ==> dom.query[sel][i] in dom.nodes
  }

  datatype Observer = TimeObserver(target: NodeKey) | ColorObserver(target: NodeKey) | DocumentWatcher

  /** The fields of a `TimerMonitor`; `polling` is `intervalId !== null`, and a
      `null` last value is `None`. */
  datatype Monitor<C> = Monitor(
    lastTimerValue: Option<string>,
    lastColorValue: Option<string>,
    timeElement: Option<NodeKey>,
    colorElement: Option<NodeKey>,
    observers: seq<Observer>,
    polling: bool,
    callback: Option<C>)

  /** The monitor's element references can be read in `dom`. */
  predicate Bound<C>(m: Monitor<C>, dom: Dom) {
    Known(dom, m.timeElement) && Known(dom, m.colorElement)
  }

  datatype Snapshot = Snapshot(time: string, color: string)

  /** One invocation `callback(time, color)`. */
  datatype Delivery<C> = Delivery(callback: C, snapshot: Snapshot)

  /** The monitor after a step, and the callback invocations the step made, in order. */
  datatype Step<C> = Step(monitor: Monitor<C>, delivered: seq<Delivery<C>>)

  const Black: string := "rgb(0, 0, 0)"

  /** The selectors of the generic search, in the order they are tried. */
  const TimerSelectors: seq<string> := ["[class*=\"timer\"]", "[id*=\"timer\"]", ".countdown", ".clock"]

  /** The last readings of `m` are exactly `s`. */
  predicate Remembers<C>(m: Monitor<C>, s: Snapshot) {
    m.lastTimerValue == Some(s.time) && m.lastColorValue == Some(s.color)
  }

  // ---------------------------------------------------------------------------
  // Readings
  // ---------------------------------------------------------------------------

  /** `textContent || innerText || ''` */
  function ElementText(n: Node): string {
    if n.textContent != "" then n.textContent else n.innerText
  }

  /** `getTimerValue`: the trimmed text of the time element, or `""` without one. */
  function GetTimerValue<C>(m: Monitor<C>, dom: Dom): (v: string)
    requires Bound(m, dom)
    ensures m.timeElement.None? ==> v == ""
    ensures m.timeElement.Some? ==> InnerPart(ElementText(dom.nodes[m.timeElement.value]), v, IsJsSpace)
    ensures v == [] || (!IsJsSpace(v[0]) && !IsJsSpace(v[|v| - 1]))
  {
    match m.timeElement
    case None => ""
    case Some(k) => JsTrim(ElementText(dom.nodes[k]))
  }

  /** An element whose text has no whitespace at its ends reads as that text. */
  lemma TimerValueUntrimmed<C>(m: Monitor<C>, dom: Dom)
    requires Bound(m, dom) && m.timeElement.Some?
    requires var text := ElementText(dom.nodes[m.timeElement.value]);
      text == [] || (!IsJsSpace(text[0]) && !IsJsSpace(text[|text| - 1]))
    ensures GetTimerValue(m, dom) == ElementText(dom.nodes[m.timeElement.value])
  {
  }

  /** A background that does not count as a colour of its own. */
  predicate IsTransparent(bg: string) {
    bg == "" || bg == "rgba(0, 0, 0, 0)" || bg == "transparent"
  }

  predicate IsOpaque(bg: string) {
    !IsTransparent(bg)
  }

  /** The colour `getTimerColor` reports for an element: its own background
      unless that is transparent and the element is not `<body>`, in which case
      the nearest non-transparent ancestor background; otherwise its own
      background if non-empty, else black. */
  function ResolveBackground(n: Node): (c: string)
    ensures c != ""
    ensures !IsTransparent(n.background) ==> c == n.background
    ensures IsTransparent(n.background) && n.isBody ==> c == (if n.background == "" then Black else n.background)
    ensures IsTransparent(n.background) && !n.isBody ==>
      ((exists i :: 0 <= i < |n.ancestorBackgrounds| && !IsTransparent(n.ancestorBackgrounds[i]))
       ==> (exists i :: 0 <= i < |n.ancestorBackgrounds| && c == n.ancestorBackgrounds[i] && !IsTransparent(c)
             && forall j :: 0 <= j < i ==> IsTransparent(n.ancestorBackgrounds[j])))
    ensures IsTransparent(n.background) && !n.isBody ==>
      ((forall i :: 0 <= i < |n.ancestorBackgrounds| ==> IsTransparent(n.ancestorBackgrounds[i]))
       ==> c == (if n.background == "" then Black else n.background))
  {
    var own := if n.background == "" then Black else n.background;
    if IsTransparent(n.background) && !n.isBody then
      match FirstWhere(n.ancestorBackgrounds, IsOpaque)
      case Some(i) => n.ancestorBackgrounds[i]
      case None => own
    else
      own
  }

  /** `getTimerColor`: black without a colour element, otherwise the resolved background. */
  function GetTimerColor<C>(m: Monitor<C>, dom: Dom): (c: string)
    requires Bound(m, dom)
    ensures c != ""
    ensures m.colorElement.None? ==> c == Black
    ensures m.colorElement.Some? ==> c == ResolveBackground(dom.nodes[m.colorElement.value])
  {
    match m.colorElement
    case None => Black
    case Some(k) => ResolveBackground(dom.nodes[k])
  }

  function Reading<C>(m: Monitor<C>, dom: Dom): Snapshot
    requires Bound(m, dom)
  {
    Snapshot(GetTimerValue(m, dom), GetTimerColor(m, dom))
  }

  // ---------------------------------------------------------------------------
  // Change detection and the callback slot
  // ---------------------------------------------------------------------------

  /** `check`: emits the current reading exactly when it differs from the last
      one in time or in colour, and then remembers it. */
  function Check<C>(m: Monitor<C>, now: Snapshot): (s: Step<C>)
    ensures Remembers(s.monitor, now)
    ensures s.monitor == m.(lastTimerValue := Some(now.time), lastColorValue := Some(now.color))
    ensures |s.delivered| <= 1
    ensures |s.delivered| == 1 <==> m.callback.Some? && !Remembers(m, now)
    ensures |s.delivered| == 1 ==> s.delivered[0] == Delivery(m.callback.value, now)
  {
    var changed := Some(now.time) != m.lastTimerValue || Some(now.color) != m.lastColorValue;
    var delivered := if changed && m.callback.Some? then [Delivery(m.callback.value, now)] else [];
    Step(m.(lastTimerValue := Some(now.time), lastColorValue := Some(now.color)), delivered)
  }

  /** A second check with the same reading emits nothing. */
  lemma CheckTwiceEmitsOnce<C>(m: Monitor<C>, now: Snapshot)
    ensures Check(Check(m, now).monitor, now).delivered == []
    ensures |Check(m, now).delivered| + |Check(Check(m, now).monitor, now).delivered| <= 1
  {
  }

  /** `setTimerChangeCallback`: replaces the single slot, and hands a non-null
      callback the last reading at once when a non-empty last time exists,
      using a fresh colour reading when the last colour is null or empty. */
  function SetTimerChangeCallback<C>(m: Monitor<C>, cb: Option<C>, dom: Dom): (s: Step<C>)
    requires Bound(m, dom)
    ensures s.monitor == m.(callback := cb)
    ensures |s.delivered| <= 1
    ensures |s.delivered| == 1 <==> cb.Some? && m.lastTimerValue.Some? && m.lastTimerValue.value != ""
    ensures |s.delivered| == 1 ==> s.delivered[0].callback == cb.value
    ensures |s.delivered| == 1 ==> s.delivered[0].snapshot.time == m.lastTimerValue.value
    ensures |s.delivered| == 1 && m.lastColorValue.Some? && m.lastColorValue.value != "" ==>
      s.delivered[0].snapshot.color == m.lastColorValue.value
    ensures |s.delivered| == 1 && (m.lastColorValue.None? || m.lastColorValue.value == "") ==>
      s.delivered[0].snapshot.color == GetTimerColor(m, dom)
  {
    var m' := m.(callback := cb);
    if cb.Some? && m.lastTimerValue.Some? && m.lastTimerValue.value != "" then
      var color := if m.lastColorValue.Some? && m.lastColorValue.value != "" then m.lastColorValue.value
                   else GetTimerColor(m, dom);
      Step(m', [Delivery(cb.value, Snapshot(m.lastTimerValue.value, color))])
    else
      Step(m', [])
  }

  // ---------------------------------------------------------------------------
  // The time-format predicate
  // ---------------------------------------------------------------------------

  /** The regular expression `^\d{1,2}:\d{2}` anchored at the start only,
      decided by looking at the first five characters. */
  predicate ClockPrefix(t: string) {
    && |t| >= 4
    && IsDigit(t[0])
    && (|| (t[1] == ':' && IsDigit(t[2]) && IsDigit(t[3]))
        || (|t| >= 5 && IsDigit(t[1]) && t[2] == ':' && IsDigit(t[3]) && IsDigit(t[4])))
  }

  /** `isTimeFormat`: false for empty text, otherwise the trimmed text starts
      with one or two digits, a colon and two digits. */
  predicate IsTimeFormat(text: string)
    ensures IsTimeFormat(text) <==> text != "" && MatchesClockPattern(JsTrim(text))
  {
    ClockPrefixIsPattern(JsTrim(text));
    text != "" && ClockPrefix(JsTrim(text))
  }

  /** The pattern read as "some `k` of 1 or 2 digits, a colon, two digits". */
  predicate MatchesClockPattern(t: string) {
    exists k :: 1 <= k <= 2 && k + 3 <= |t| && AllDigits(t[..k]) && t[k] == ':' && AllDigits(t[k + 1..k + 3])
  }

  /** The character test agrees with the pattern in both directions. */
  lemma ClockPrefixIsPattern(t: string)
    ensures ClockPrefix(t) <==> MatchesClockPattern(t)
  {
    if ClockPrefix(t) {
      if t[1] == ':' {
        assert AllDigits(t[..1]) && AllDigits(t[2..4]);
        assert 1 + 3 <= |t| && t[1] == ':';
      } else {
        assert AllDigits(t[..2]) && AllDigits(t[3..5]);
        assert 2 + 3 <= |t| && t[2] == ':';
      }
    }
    if MatchesClockPattern(t) {
      var k :| 1 <= k <= 2 && k + 3 <= |t| && AllDigits(t[..k]) && t[k] == ':' && AllDigits(t[k + 1..k + 3]);
      assert t[..k][0] == t[0];
      assert t[k + 1..k + 3][0] == t[k + 1] && t[k + 1..k + 3][1] == t[k + 2];
      if k == 2 {
        assert t[..k][1] == t[1];
      }
    }
  }

  /** Three digits before the colon are refused, trailing text is allowed. */
  lemma TimeFormatExamples()
    ensures !IsTimeFormat("")
    ensures !ClockPrefix("123:45")
    ensures ClockPrefix("01:07") && ClockPrefix("1:07 left")
  {
  }

  // ---------------------------------------------------------------------------
  // Discovery
  // ---------------------------------------------------------------------------

  function Lookup(dom: Dom, sel: string): seq<NodeKey> {
    if sel in dom.query then dom.query[sel] else []
  }

  /** The matches of every selector in `sels`, selector by selector. */
  function CandidatesOf(dom: Dom, sels: seq<string>): (ks: seq<NodeKey>)
    requires WellFormed(dom)
    ensures forall i :: 0 <= i < |ks| ==> ks[i] in dom.nodes
    decreases |sels|
  {
    if |sels| == 0 then [] else Lookup(dom, sels[0]) + CandidatesOf(dom, sels[1..])
  }

  function Candidates(dom: Dom): (ks: seq<NodeKey>)
    requires WellFormed(dom)
    ensures forall i :: 0 <= i < |ks| ==> ks[i] in dom.nodes
  {
    CandidatesOf(dom, TimerSelectors)
  }

  predicate LooksLikeTimer(dom: Dom, k: NodeKey)
    requires k in dom.nodes
  {
    IsTimeFormat(dom.nodes[k].textContent)
  }

  datatype Binding = BindTo(time: NodeKey, color: NodeKey) | NoTimer

  /** The element choice of `findTimerElements` / `findGenericTimerElement`. */
  function Discover(dom: Dom): (b: Binding)
    requires WellFormed(dom)
    ensures b.BindTo? ==> b.time in dom.nodes && b.color in dom.nodes
    ensures dom.timeDiv.Some? ==> b == BindTo(dom.timeDiv.value, dom.timerGrid.GetOr(dom.timeDiv.value))
    ensures dom.timeDiv.None? ==>
      (b.BindTo? <==> exists i :: 0 <= i < |Candidates(dom)| && LooksLikeTimer(dom, Candidates(dom)[i]))
    ensures dom.timeDiv.None? && b.BindTo? ==>
      b.time == b.color
      && exists i :: 0 <= i < |Candidates(dom)| && Candidates(dom)[i] == b.time && LooksLikeTimer(dom, b.time)
           && forall j :: 0 <= j < i ==> !LooksLikeTimer(dom, Candidates(dom)[j])
  {
    if dom.timeDiv.Some? then
      BindTo(dom.timeDiv.value, dom.timerGrid.GetOr(dom.timeDiv.value))
    else
      var ks := Candidates(dom);
      match FirstWhere(ks, k => k in dom.nodes && LooksLikeTimer(dom, k))
      case Some(i) => BindTo(ks[i], ks[i])
      case None => NoTimer
  }

  // ---------------------------------------------------------------------------
  // Monitoring lifecycle
  // ---------------------------------------------------------------------------

  /** A monitor that has just been constructed, before `init`. */
  function Fresh<C>(): Monitor<C> {
    Monitor(None, None, None, None, [], false, None)
  }

  /** `stopMonitoring`: disconnects every observer and clears the interval. */
  function Stop<C>(m: Monitor<C>): (r: Monitor<C>)
    ensures r.observers == [] && !r.polling
    ensures r.(observers := m.observers, polling := m.polling) == m
  {
    m.(observers := [], polling := false)
  }

  lemma StopIdempotent<C>(m: Monitor<C>)
    ensures Stop(Stop(m)) == Stop(m)
  {
  }

  /** `startMonitoring`: stops what ran before; with a time element, seeds the
      last values from the current readings (without calling back) and starts
      the observers and the poll. */
  function StartMonitoring<C>(m: Monitor<C>, dom: Dom): (r: Monitor<C>)
    requires Bound(m, dom)
    ensures Bound(r, dom)
    ensures r.timeElement == m.timeElement && r.colorElement == m.colorElement && r.callback == m.callback
    ensures r.polling <==> m.timeElement.Some?
    ensures DocumentWatcher !in r.observers
    ensures m.timeElement.None? ==> r == Stop(m)
    ensures m.timeElement.Some? ==> Remembers(r, Reading(m, dom))
    ensures m.timeElement.Some? ==> TimeObserver(m.timeElement.value) in r.observers
    ensures m.colorElement.Some? && m.timeElement.Some? ==> ColorObserver(m.colorElement.value) in r.observers
    ensures m.timeElement.Some? ==> forall o :: o in r.observers ==>
      o == TimeObserver(m.timeElement.value) || (m.colorElement.Some? && o == ColorObserver(m.colorElement.value))
  {
    var s := Stop(m);
    if s.timeElement.None? then
      s
    else
      var colorObs := if s.colorElement.Some? then [ColorObserver(s.colorElement.value)] else [];
      var observers := [TimeObserver(s.timeElement.value)] + colorObs;
      assert forall o :: o in observers ==>
        o == TimeObserver(m.timeElement.value) || (m.colorElement.Some? && o == ColorObserver(m.colorElement.value));
      s.(lastTimerValue := Some(GetTimerValue(s, dom)),
         lastColorValue := Some(GetTimerColor(s, dom)),
         observers := observers,
         polling := true)
  }

  /** Seeding means the first check after a start, on an unchanged page, emits nothing. */
  lemma StartIsSilent<C>(m: Monitor<C>, dom: Dom)
    requires Bound(m, dom) && m.timeElement.Some?
    ensures Check(StartMonitoring(m, dom), Reading(StartMonitoring(m, dom), dom)).delivered == []
  {
    var r := StartMonitoring(m, dom);
    assert Reading(r, dom) == Reading(m, dom);
  }

  /** `findTimerElements`: binds the discovered elements and starts monitoring,
      or falls back to watching the whole document. */
  function FindTimerElements<C>(m: Monitor<C>, dom: Dom): (r: Monitor<C>)
    requires WellFormed(dom) && Bound(m, dom)
    ensures Bound(r, dom) && r.callback == m.callback
    ensures Discover(dom).BindTo? ==>
      && r.timeElement == Some(Discover(dom).time)
      && r.colorElement == Some(Discover(dom).color)
      && r.polling
      && DocumentWatcher !in r.observers
      && Remembers(r, Reading(r, dom))
    ensures Discover(dom).NoTimer? ==>
      r == m.(observers := m.observers + [DocumentWatcher])
  {
    match Discover(dom)
    case BindTo(t, c) => StartMonitoring(m.(timeElement := Some(t), colorElement := Some(c)), dom)
    case NoTimer => m.(observers := m.observers + [DocumentWatcher])
  }

  /** The constructor: a fresh monitor that runs `init` on a loaded page. */
  function Create<C>(dom: Dom): (m: Monitor<C>)
    requires WellFormed(dom)
    ensures Bound(m, dom) && m.callback.None?
    ensures Discover(dom).NoTimer? ==> m.observers == [DocumentWatcher] && !m.polling
    ensures Discover(dom).BindTo? ==> m.polling && Remembers(m, Reading(m, dom))
  {
    var f: Monitor<C> := Fresh();
    assert Bound(f, dom) && f.observers + [DocumentWatcher] == [DocumentWatcher];
    FindTimerElements(f, dom)
  }

  /** A batch delivered to the document watcher: once `timeDiv` exists, the
      watcher disconnects and discovery runs again. */
  function DocumentMutation<C>(m: Monitor<C>, dom: Dom): (r: Monitor<C>)
    requires WellFormed(dom) && Bound(m, dom)
    ensures Bound(r, dom) && r.callback == m.callback
    ensures DocumentWatcher in m.observers && dom.timeDiv.Some? ==>
      r.timeElement == dom.timeDiv && r.polling && DocumentWatcher !in r.observers
    ensures DocumentWatcher !in m.observers || dom.timeDiv.None? ==> r == m
  {
    if DocumentWatcher in m.observers && dom.timeDiv.Some? then FindTimerElements(m, dom) else m
  }

  /** One poll tick: a detached time element, or a `timeDiv` id that now names
      another element, stops monitoring and re-runs discovery; otherwise the
      tick checks for a change. */
  function Tick<C>(m: Monitor<C>, dom: Dom): (s: Step<C>)
    requires WellFormed(dom) && Bound(m, dom) && m.timeElement.Some?
    ensures Bound(s.monitor, dom) && s.monitor.callback == m.callback
    ensures NeedsRebind(m, dom) ==> s.delivered == []
    ensures NeedsRebind(m, dom) && Discover(dom).BindTo? ==>
      s.monitor.timeElement == Some(Discover(dom).time) && s.monitor.polling
      && Remembers(s.monitor, Reading(s.monitor, dom))
    ensures NeedsRebind(m, dom) && Discover(dom).NoTimer? ==>
      !s.monitor.polling && s.monitor.observers == [DocumentWatcher]
    ensures !NeedsRebind(m, dom) ==>
      Remembers(s.monitor, Reading(m, dom)) && s.monitor.timeElement == m.timeElement
      && s.monitor.polling == m.polling && s.monitor.observers == m.observers
      && (|s.delivered| == 1 <==> m.callback.Some? && !Remembers(m, Reading(m, dom)))
      && |s.delivered| <= 1
      && (|s.delivered| == 1 ==> s.delivered[0] == Delivery(m.callback.value, Reading(m, dom)))
  {
    if NeedsRebind(m, dom) then Step(FindTimerElements(Stop(m), dom), [])
    else Check(m, Reading(m, dom))
  }

  /** The two self-healing conditions of the poll tick, in the order tested. */
  predicate NeedsRebind<C>(m: Monitor<C>, dom: Dom)
    requires Bound(m, dom) && m.timeElement.Some?
  {
    var t := m.timeElement.value;
    || !dom.nodes[t].connected
    || (dom.nodes[t].htmlId == "timeDiv" && dom.timeDiv.Some? && dom.timeDiv.value != t)
  }

  /** `destroy`: stops monitoring and clears the callback. */
  function Destroy<C>(m: Monitor<C>): (r: Monitor<C>)
    ensures r.observers == [] && !r.polling && r.callback.None?
    ensures r.timeElement == m.timeElement && r.colorElement == m.colorElement
    ensures r.lastTimerValue == m.lastTimerValue && r.lastColorValue == m.lastColorValue
  {
    Stop(m).(callback := None)
  }

  /** After `destroy` no check reaches a callback, and destroying again changes nothing. */
  lemma DestroyIsFinal<C>(m: Monitor<C>, now: Snapshot)
    ensures Check(Destroy(m), now).delivered == []
    ensures Destroy(Destroy(m)) == Destroy(m)
  {
  }

  // ---------------------------------------------------------------------------
  // Runs of checks
  // ---------------------------------------------------------------------------

  /** Checks the readings one after another, collecting the deliveries. */
  function Run<C>(m: Monitor<C>, readings: seq<Snapshot>): (s: Step<C>)
    ensures s.monitor.callback == m.callback
    ensures m.callback.None? ==> s.delivered == []
    ensures |readings| > 0 ==> Remembers(s.monitor, readings[|readings| - 1])
    decreases |readings|
  {
    if |readings| == 0 then
      Step(m, [])
    else
      var first := Check(m, readings[0]);
      var rest := Run(first.monitor, readings[1..]);
      assert readings[1..] != [] ==> readings[1..][|readings[1..]| - 1] == readings[|readings| - 1];
      Step(rest.monitor, first.delivered + rest.delivered)
  }

  /** No false positives: readings that all equal the last one emit nothing. */
  lemma {:induction false} RunQuiet<C>(m: Monitor<C>, readings: seq<Snapshot>)
    requires forall i :: 0 <= i < |readings| ==> Remembers(m, readings[i])
    ensures Run(m, readings).delivered == []
    decreases |readings|
  {
    if |readings| > 0 {
      var first := Check(m, readings[0]);
      assert first.monitor == m;
      RunQuiet(m, readings[1..]);
    }
  }

  /** Deduplication: the first emission differs from what the monitor last saw,
      and no emission repeats the one before it. */
  lemma {:induction false} RunNeverRepeats<C>(m: Monitor<C>, readings: seq<Snapshot>)
    ensures var d := Run(m, readings).delivered;
      && (|d| > 0 ==> !Remembers(m, d[0].snapshot))
      && (forall j :: 0 < j < |d| ==> d[j - 1].snapshot != d[j].snapshot)
    decreases |readings|
  {
    if |readings| > 0 {
      var first := Check(m, readings[0]);
      var rest := Run(first.monitor, readings[1..]);
      RunNeverRepeats(first.monitor, readings[1..]);
      var d := first.delivered + rest.delivered;
      assert Run(m, readings).delivered == d;
      if |first.delivered| == 1 {
        assert Remembers(first.monitor, first.delivered[0].snapshot);
        forall j | 0 < j < |d|
          ensures d[j - 1].snapshot != d[j].snapshot
        {
          if j == 1 {
            assert d[1] == rest.delivered[0];
          } else {
            assert d[j - 1] == rest.delivered[j - 2] && d[j] == rest.delivered[j - 1];
          }
        }
      } else if m.callback.Some? {
        assert Remembers(m, readings[0]);
        assert first.monitor == m;
        assert d == rest.delivered;
      } else {
        assert d == [];
      }
    }
  }
}
