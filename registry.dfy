/** The state of the URL-shortener component and one pure transition per event
    handler: the pending form entries, the registry of shortened links and the
    error banner. The class in app.dfy performs these transitions in place. */
module Registry {

  datatype Option<T> = None | Some(value: T)

  /** The form holds at most this many pending entries. */
  const MaxInputs: nat := 5
  /** Validity, in minutes, of a freshly added or reset entry. */
  const DefaultValidity: int := 30
  const MsPerMinute: nat := 60000
  /** A JavaScript Date holds times of at most this many milliseconds from the
      epoch either way; a larger time value gives an Invalid Date, and every
      comparison with an Invalid Date is false. */
  const MaxTimeMs: int := 8_640_000_000_000_000

  const InvalidUrlPrefix: string := "Invalid URL format: "
  const ValidityMessage: string := "Validity period must be at least 1 minute"
  const ExpiredMessage: string := "This URL has expired"

  /** One pending form entry; `validity` is in minutes and is not checked until submit. */
  datatype UrlInput = UrlInput(longUrl: string, customCode: string, validity: int)

  const DefaultInput: UrlInput := UrlInput("", "", DefaultValidity)

  /** One shortened link. Times are milliseconds since the epoch. */
  datatype UrlRecord = UrlRecord(
    longUrl: string,
    shortcode: string,
    created: nat,
    expiry: int,
    clicks: nat,
    clickDetails: seq<nat>)

  /** A keystroke in one of the three inputs of an entry. */
  datatype Edit = SetLongUrl(url: string) | SetCustomCode(code: string) | SetValidity(minutes: int)

  /** The three state cells of the component. */
  datatype AppState = AppState(urlInputs: seq<UrlInput>, urls: seq<UrlRecord>, error: string)

  const Init: AppState := AppState([DefaultInput], [], "")

  // ---------------------------------------------------------------------------
  // Pending-input list

  function AddInput(s: AppState): (t: AppState)
    ensures t.urls == s.urls && t.error == s.error
    ensures |t.urlInputs| == if |s.urlInputs| < MaxInputs then |s.urlInputs| + 1 else |s.urlInputs|
    ensures t.urlInputs[..|s.urlInputs|] == s.urlInputs
    ensures forall i :: |s.urlInputs| <= i < |t.urlInputs| ==> t.urlInputs[i] == DefaultInput
  {
    if |s.urlInputs| < MaxInputs then s.(urlInputs := s.urlInputs + [DefaultInput]) else s
  }

  /** The edited field takes the new value; the other two fields keep theirs. */
  function ApplyEdit(input: UrlInput, edit: Edit): (r: UrlInput)
    ensures r.longUrl == if edit.SetLongUrl? then edit.url else input.longUrl
    ensures r.customCode == if edit.SetCustomCode? then edit.code else input.customCode
    ensures r.validity == if edit.SetValidity? then edit.minutes else input.validity
  {
    match edit
    case SetLongUrl(u) => input.(longUrl := u)
    case SetCustomCode(c) => input.(customCode := c)
    case SetValidity(m) => input.(validity := m)
  }

  /** None when there is no entry at `index`: the handler then throws before
      committing anything. */
  function EditInput(s: AppState, index: int, edit: Edit): (t: Option<AppState>)
    ensures t.Some? <==> 0 <= index < |s.urlInputs|
    ensures t.Some? ==>
      && t.value.urls == s.urls
      && t.value.error == s.error
      && |t.value.urlInputs| == |s.urlInputs|
      && t.value.urlInputs[index] == ApplyEdit(s.urlInputs[index], edit)
      && forall j :: 0 <= j < |s.urlInputs| && j != index ==> t.value.urlInputs[j] == s.urlInputs[j]
  {
    if 0 <= index < |s.urlInputs| then
      Some(s.(urlInputs := s.urlInputs[index := ApplyEdit(s.urlInputs[index], edit)]))
    else
      None
  }

  // ---------------------------------------------------------------------------
  // Validation

  /** The error shown for a malformed URL ends with that URL. */
  function InvalidUrlMessage(url: string): (m: string)
    ensures |m| > |url| && m[|m| - |url|..] == url
    ensures m != ValidityMessage
  {
    var m := InvalidUrlPrefix + url;
    assert m[0] != ValidityMessage[0];
    m
  }

  /** The verdict on one entry: the URL check comes first, then the validity check. */
  function CheckInput(input: UrlInput, validUrl: string -> bool): (r: Option<string>)
    ensures r.None? <==> validUrl(input.longUrl) && input.validity >= 1
    ensures !validUrl(input.longUrl) ==> r == Some(InvalidUrlMessage(input.longUrl))
    ensures validUrl(input.longUrl) && input.validity < 1 ==> r == Some(ValidityMessage)
    ensures r.Some? ==> r.value != ""
  {
    if !validUrl(input.longUrl) then Some(InvalidUrlMessage(input.longUrl))
    else if input.validity < 1 then Some(ValidityMessage)
    else None
  }

  /** Position of the first entry that fails its check, or |inputs| when all pass. */
  function FirstFailing(inputs: seq<UrlInput>, validUrl: string -> bool): (k: nat)
    ensures k <= |inputs|
    ensures forall j :: 0 <= j < k ==> CheckInput(inputs[j], validUrl).None?
    ensures k < |inputs| ==> CheckInput(inputs[k], validUrl).Some?
    decreases |inputs|
  {
    if |inputs| == 0 || CheckInput(inputs[0], validUrl).Some? then 0
    else 1 + FirstFailing(inputs[1..], validUrl)
  }

  /** The one error a submit reports: that of the first failing entry. */
  function BatchError(inputs: seq<UrlInput>, validUrl: string -> bool): (r: Option<string>)
    ensures r.None? <==> forall j :: 0 <= j < |inputs| ==> CheckInput(inputs[j], validUrl).None?
  {
    var k := FirstFailing(inputs, validUrl);
    if k < |inputs| then CheckInput(inputs[k], validUrl) else None
  }

  /** Any index whose entry fails while all earlier ones pass is the one BatchError reports. */
  lemma FirstFailureUnique(inputs: seq<UrlInput>, validUrl: string -> bool, i: nat)
    requires i < |inputs|
    requires forall j :: 0 <= j < i ==> CheckInput(inputs[j], validUrl).None?
    requires CheckInput(inputs[i], validUrl).Some?
    ensures FirstFailing(inputs, validUrl) == i
    ensures BatchError(inputs, validUrl) == CheckInput(inputs[i], validUrl)
  {
  }

  // ---------------------------------------------------------------------------
  // Records

  /** Every access is counted and time-stamped, an access is only recorded
      before expiry, and a record lives at least one minute. */
  predicate WellFormed(r: UrlRecord)
  {
    && r.clicks == |r.clickDetails|
    && r.created + MsPerMinute <= r.expiry
    && forall k :: 0 <= k < |r.clickDetails| ==> r.clickDetails[k] < r.expiry
  }

  /** The expiry time is a valid Date. */
  predicate HasValidExpiry(r: UrlRecord)
  {
    -MaxTimeMs <= r.expiry <= MaxTimeMs
  }

  /** `now < expiry` on Dates: false when the expiry is an Invalid Date. */
  predicate IsLive(r: UrlRecord, now: nat)
  {
    HasValidExpiry(r) && now < r.expiry
  }

  /** The parts of a record that redirects never touch. */
  predicate SameLink(a: UrlRecord, b: UrlRecord)
  {
    a.longUrl == b.longUrl && a.shortcode == b.shortcode && a.created == b.created && a.expiry == b.expiry
  }

  /** The record built for one entry; `generated` stands for the random code. */
  function MakeRecord(input: UrlInput, generated: string, now: nat): (r: UrlRecord)
    ensures r.longUrl == input.longUrl
    ensures input.customCode != "" ==> r.shortcode == input.customCode
    ensures input.customCode == "" ==> r.shortcode == generated
    ensures r.created == now && r.expiry - r.created == input.validity * MsPerMinute
    ensures r.clicks == 0 && r.clickDetails == []
    ensures input.validity >= 1 ==> WellFormed(r)
    ensures IsLive(r, now) <==> input.validity >= 1 && now + input.validity * MsPerMinute <= MaxTimeMs
  {
    UrlRecord(
      input.longUrl,
      if input.customCode != "" then input.customCode else generated,
      now,
      now + input.validity * MsPerMinute,
      0,
      [])
  }

  /** One record per entry, in entry order; entry i gets the i-th random code. */
  function NewRecords(inputs: seq<UrlInput>, randomCode: nat -> string, now: nat): (rs: seq<UrlRecord>)
    ensures |rs| == |inputs|
  {
    seq(|inputs|, i requires 0 <= i < |inputs| => MakeRecord(inputs[i], randomCode(i), now))
  }

  /** The whole batch is checked first; it is either rejected with one error and
      nothing else changes, or all of it is appended and the form is reset. */
  function Submit(s: AppState, validUrl: string -> bool, randomCode: nat -> string, now: nat): (t: AppState)
    ensures t.error == "" <==> BatchError(s.urlInputs, validUrl).None?
    ensures t.error != "" ==> t.urls == s.urls && t.urlInputs == s.urlInputs
    ensures t.error == "" ==>
      && t.urlInputs == [DefaultInput]
      && |t.urls| == |s.urls| + |s.urlInputs|
      && t.urls[..|s.urls|] == s.urls
  {
    match BatchError(s.urlInputs, validUrl)
    case Some(msg) => s.(error := msg)
    case None => AppState([DefaultInput], s.urls + NewRecords(s.urlInputs, randomCode, now), "")
  }

  /** A rejected submit reports the check of the first failing entry, all
      entries before it having passed. */
  lemma SubmitReportsFirstFailure(s: AppState, validUrl: string -> bool, randomCode: nat -> string, now: nat)
    requires BatchError(s.urlInputs, validUrl).Some?
    ensures var t := Submit(s, validUrl, randomCode, now);
      exists i :: 0 <= i < |s.urlInputs|
        && (forall j :: 0 <= j < i ==> CheckInput(s.urlInputs[j], validUrl).None?)
        && Some(t.error) == CheckInput(s.urlInputs[i], validUrl)
  {
    var k := FirstFailing(s.urlInputs, validUrl);
    assert 0 <= k < |s.urlInputs|;
  }

  /** An accepted submit appends, after the old records, the record of each
      entry in entry order, each well-formed, and live at `now` unless its
      expiry lies beyond the last valid Date. */
  lemma SubmitAppendsInOrder(s: AppState, validUrl: string -> bool, randomCode: nat -> string, now: nat, i: nat)
    requires BatchError(s.urlInputs, validUrl).None?
    requires i < |s.urlInputs|
    ensures var t := Submit(s, validUrl, randomCode, now);
      && t.urls[|s.urls| + i] == MakeRecord(s.urlInputs[i], randomCode(i), now)
      && WellFormed(t.urls[|s.urls| + i])
      && (IsLive(t.urls[|s.urls| + i], now) <==> now + s.urlInputs[i].validity * MsPerMinute <= MaxTimeMs)
  {
    assert CheckInput(s.urlInputs[i], validUrl).None?;
  }

  // ---------------------------------------------------------------------------
  // Redirect

  /** Index of the first record with this shortcode, or -1. */
  function FindIndex(urls: seq<UrlRecord>, code: string): (r: int)
    ensures -1 <= r < |urls|
    ensures r == -1 <==> forall j :: 0 <= j < |urls| ==> urls[j].shortcode != code
    ensures r >= 0 ==> urls[r].shortcode == code && forall j :: 0 <= j < r ==> urls[j].shortcode != code
    decreases |urls|
  {
    if |urls| == 0 then -1
    else if urls[0].shortcode == code then 0
    else
      var k := FindIndex(urls[1..], code);
      if k == -1 then -1 else k + 1
  }

  /** One counted access at time `now`. */
  function Visit(r: UrlRecord, now: nat): (v: UrlRecord)
    ensures SameLink(r, v)
    ensures v.clicks == r.clicks + 1 && v.clickDetails == r.clickDetails + [now]
    ensures WellFormed(r) && IsLive(r, now) ==> WellFormed(v)
  {
    r.(clicks := r.clicks + 1, clickDetails := r.clickDetails + [now])
  }

  function Redirect(s: AppState, code: string, now: nat): (t: AppState)
    ensures t.urlInputs == s.urlInputs && |t.urls| == |s.urls|
    ensures FindIndex(s.urls, code) == -1 ==> t == s
    ensures forall j :: 0 <= j < |s.urls| && j != FindIndex(s.urls, code) ==> t.urls[j] == s.urls[j]
  {
    var i := FindIndex(s.urls, code);
    if i == -1 then s
    else if IsLive(s.urls[i], now) then s.(urls := s.urls[i := Visit(s.urls[i], now)])
    else s.(error := ExpiredMessage)
  }

  /** On the first match, a live record is visited and nothing else changes. */
  lemma RedirectLive(s: AppState, code: string, now: nat)
    requires FindIndex(s.urls, code) >= 0 && IsLive(s.urls[FindIndex(s.urls, code)], now)
    ensures var i, t := FindIndex(s.urls, code), Redirect(s, code, now);
      && t.urls == s.urls[i := Visit(s.urls[i], now)]
      && t.urls[i].clicks == s.urls[i].clicks + 1
      && t.urls[i].clickDetails == s.urls[i].clickDetails + [now]
      && SameLink(s.urls[i], t.urls[i])
      && t.error == s.error
  {
  }

  /** On the first match, an expired record only raises the expired error. */
  lemma RedirectExpired(s: AppState, code: string, now: nat)
    requires FindIndex(s.urls, code) >= 0 && !IsLive(s.urls[FindIndex(s.urls, code)], now)
    ensures Redirect(s, code, now) == s.(error := ExpiredMessage)
  {
  }

  /** A record whose expiry lies beyond the last valid Date counts as expired
      from the start: a redirect that reaches it only raises the expired error. */
  lemma BeyondDateRangeNeverLive(s: AppState, code: string, now: nat)
    requires FindIndex(s.urls, code) >= 0 && s.urls[FindIndex(s.urls, code)].expiry > MaxTimeMs
    ensures Redirect(s, code, now) == s.(error := ExpiredMessage)
  {
    RedirectExpired(s, code, now);
  }

  /** A record whose shortcode an earlier record also carries is never reached
      by a redirect on that shortcode. */
  lemma ShadowedRecordUnreachable(s: AppState, code: string, now: nat, i: nat, j: nat)
    requires i < j < |s.urls|
    requires s.urls[i].shortcode == code && s.urls[j].shortcode == code
    ensures Redirect(s, code, now).urls[j] == s.urls[j]
  {
  }

  // ---------------------------------------------------------------------------
  // Reachable states

  /** The pending list holds one to five entries and every record is well-formed. */
  predicate Inv(s: AppState)
  {
    && 1 <= |s.urlInputs| <= MaxInputs
    && forall i :: 0 <= i < |s.urls| ==> WellFormed(s.urls[i])
  }

  datatype Event =
    | AddEvent
    | EditEvent(index: int, edit: Edit)
    | SubmitEvent(validUrl: string -> bool, randomCode: nat -> string, submitTime: nat)
    | RedirectEvent(code: string, redirectTime: nat)

  function Step(s: AppState, e: Event): AppState
  {
    match e
    case AddEvent => AddInput(s)
    case EditEvent(index, edit) =>
      (match EditInput(s, index, edit) case Some(t) => t case None => s)
    case SubmitEvent(validUrl, randomCode, now) => Submit(s, validUrl, randomCode, now)
    case RedirectEvent(code, now) => Redirect(s, code, now)
  }

  function Run(s: AppState, events: seq<Event>): AppState
    decreases |events|
  {
    if events == [] then s else Run(Step(s, events[0]), events[1..])
  }

  lemma AddInputKeepsInv(s: AppState)
    requires Inv(s)
    ensures Inv(AddInput(s))
  {
  }

  lemma EditInputKeepsInv(s: AppState, index: int, edit: Edit)
    requires Inv(s) && EditInput(s, index, edit).Some?
    ensures Inv(EditInput(s, index, edit).value)
  {
  }

  lemma SubmitKeepsInv(s: AppState, validUrl: string -> bool, randomCode: nat -> string, now: nat)
    requires Inv(s)
    ensures Inv(Submit(s, validUrl, randomCode, now))
  {
    var t := Submit(s, validUrl, randomCode, now);
    if BatchError(s.urlInputs, validUrl).None? {
      forall i | 0 <= i < |t.urls|
        ensures WellFormed(t.urls[i])
      {
        if i >= |s.urls| {
          SubmitAppendsInOrder(s, validUrl, randomCode, now, i - |s.urls|);
        }
      }
    }
  }

  lemma RedirectKeepsInv(s: AppState, code: string, now: nat)
    requires Inv(s)
    ensures Inv(Redirect(s, code, now))
  {
  }

  lemma StepKeepsInv(s: AppState, e: Event)
    requires Inv(s)
    ensures Inv(Step(s, e))
  {
    match e
    case AddEvent => AddInputKeepsInv(s);
    case EditEvent(index, edit) =>
      if EditInput(s, index, edit).Some? { EditInputKeepsInv(s, index, edit); }
    case SubmitEvent(validUrl, randomCode, now) => SubmitKeepsInv(s, validUrl, randomCode, now);
    case RedirectEvent(code, now) => RedirectKeepsInv(s, code, now);
  }

  lemma {:induction false} RunKeepsInv(s: AppState, events: seq<Event>)
    requires Inv(s)
    ensures Inv(Run(s, events))
    decreases |events|
  {
    if events != [] {
      StepKeepsInv(s, events[0]);
      RunKeepsInv(Step(s, events[0]), events[1..]);
    }
  }

  /** From page load, whatever the user does: one to five pending entries, and
      every record's click count equals the number of recorded accesses. */
  lemma ReachableStatesBounded(events: seq<Event>)
    ensures var s := Run(Init, events);
      && 1 <= |s.urlInputs| <= MaxInputs
      && forall i :: 0 <= i < |s.urls| ==> s.urls[i].clicks == |s.urls[i].clickDetails|
  {
    RunKeepsInv(Init, events);
  }

  /** `b` is a later version of the registry `a`: no record removed or reordered,
      no link, creation or expiry time changed, and click histories only extended. */
  predicate Extends(a: seq<UrlRecord>, b: seq<UrlRecord>)
  {
    && |a| <= |b|
    && forall i :: 0 <= i < |a| ==> SameLink(a[i], b[i]) && a[i].clickDetails <= b[i].clickDetails
  }

  lemma StepExtends(s: AppState, e: Event)
    ensures Extends(s.urls, Step(s, e).urls)
  {
    match e
    case AddEvent =>
    case EditEvent(index, edit) =>
    case SubmitEvent(validUrl, randomCode, now) =>
    case RedirectEvent(code, now) =>
      var i := FindIndex(s.urls, code);
      if i >= 0 && IsLive(s.urls[i], now) {
        RedirectLive(s, code, now);
      }
  }

  lemma {:induction false} RunExtends(s: AppState, events: seq<Event>)
    ensures Extends(s.urls, Run(s, events).urls)
    decreases |events|
  {
    if events != [] {
      var s' := Step(s, events[0]);
      StepExtends(s, events[0]);
      RunExtends(s', events[1..]);
      var u := Run(s', events[1..]).urls;
      forall i | 0 <= i < |s.urls|
        ensures SameLink(s.urls[i], u[i]) && s.urls[i].clickDetails <= u[i].clickDetails
      {
        assert s.urls[i].clickDetails <= s'.urls[i].clickDetails <= u[i].clickDetails;
      }
    }
  }
}
