/** The component itself: three state cells updated in place by one method per
    event handler, each proved to perform the transition of the same name in
    module Registry and to keep the reachable-state invariant. */
module AppComponent {
  import opened Registry

  /** The validation loop of submit: entries are checked in order and the
      first failure ends the loop with its message. */
  method ValidateBatch(inputs: seq<UrlInput>, validUrl: string -> bool) returns (failure: Option<string>)
    ensures failure == BatchError(inputs, validUrl)
    ensures failure.None? <==> forall j :: 0 <= j < |inputs| ==> CheckInput(inputs[j], validUrl).None?
  {
    for i := 0 to |inputs|
      invariant forall j :: 0 <= j < i ==> CheckInput(inputs[j], validUrl).None?
    {
      var input := inputs[i];
      if !validUrl(input.longUrl) {
        FirstFailureUnique(inputs, validUrl, i);
        return Some(InvalidUrlMessage(input.longUrl));
      }
      if input.validity < 1 {
        FirstFailureUnique(inputs, validUrl, i);
        return Some(ValidityMessage);
      }
    }
    return None;
  }

  class App {
    var urlInputs: seq<UrlInput>
    var urls: seq<UrlRecord>
    var error: string

    function State(): AppState
      reads this
    {
      AppState(urlInputs, urls, error)
    }

    ghost predicate Valid()
      reads this
    {
      Inv(State())
    }

    /** Page load: one default entry, no records, no error. */
    constructor ()
      ensures Valid()
      ensures urlInputs == [DefaultInput] && urls == [] && error == ""
    {
      urlInputs := [DefaultInput];
      urls := [];
      error := "";
    }

    method AddUrlInput()
      requires Valid()
      modifies this
      ensures Valid()
      ensures State() == AddInput(old(State()))
      ensures old(|urlInputs|) < MaxInputs ==> urlInputs == old(urlInputs) + [DefaultInput]
      ensures old(|urlInputs|) >= MaxInputs ==> urlInputs == old(urlInputs)
      ensures urls == old(urls) && error == old(error)
    {
      if |urlInputs| < MaxInputs {
        urlInputs := urlInputs + [DefaultInput];
      }
      AddInputKeepsInv(old(State()));
    }

    /** `thrown` reports that there is no entry at `index`, in which case the
        handler fails before committing and nothing changes. */
    method HandleInputChange(index: int, edit: Edit) returns (thrown: bool)
      requires Valid()
      modifies this
      ensures Valid()
      ensures thrown <==> !(0 <= index < old(|urlInputs|))
      ensures thrown ==> State() == old(State())
      ensures !thrown ==> Some(State()) == EditInput(old(State()), index, edit)
      ensures !thrown ==> urlInputs == old(urlInputs)[index := ApplyEdit(old(urlInputs)[index], edit)]
      ensures urls == old(urls) && error == old(error)
    {
      if !(0 <= index < |urlInputs|) {
        return true;
      }
      var newInputs := urlInputs;
      newInputs := newInputs[index := ApplyEdit(newInputs[index], edit)];
      urlInputs := newInputs;
      EditInputKeepsInv(old(State()), index, edit);
      thrown := false;
    }

    method HandleSubmit(validUrl: string -> bool, randomCode: nat -> string, now: nat)
      requires Valid()
      modifies this
      ensures Valid()
      ensures State() == Submit(old(State()), validUrl, randomCode, now)
      ensures BatchError(old(urlInputs), validUrl).Some? ==>
        && urls == old(urls)
        && urlInputs == old(urlInputs)
        && Some(error) == BatchError(old(urlInputs), validUrl)
      ensures BatchError(old(urlInputs), validUrl).None? ==>
        && urls == old(urls) + NewRecords(old(urlInputs), randomCode, now)
        && urlInputs == [DefaultInput]
        && error == ""
    {
      error := "";
      var failure := ValidateBatch(urlInputs, validUrl);
      if failure.Some? {
        error := failure.value;
        SubmitKeepsInv(old(State()), validUrl, randomCode, now);
        return;
      }
      var newUrls := NewRecords(urlInputs, randomCode, now);
      urls := urls + newUrls;
      urlInputs := [DefaultInput];
      SubmitKeepsInv(old(State()), validUrl, randomCode, now);
    }

    /** `target` is the long URL the handler opens in a new tab, if any. */
    method HandleRedirect(shortcode: string, now: nat) returns (target: Option<string>)
      requires Valid()
      modifies this
      ensures Valid()
      ensures State() == Redirect(old(State()), shortcode, now)
      ensures var i := FindIndex(old(urls), shortcode);
        && (i == -1 ==> target.None? && State() == old(State()))
        && (i >= 0 && IsLive(old(urls)[i], now) ==>
              && target == Some(old(urls)[i].longUrl)
              && urls == old(urls)[i := Visit(old(urls)[i], now)]
              && error == old(error))
        && (i >= 0 && !IsLive(old(urls)[i], now) ==>
              && target.None?
              && urls == old(urls)
              && error == ExpiredMessage)
      ensures urlInputs == old(urlInputs)
    {
      target := None;
      var urlIndex := FindIndex(urls, shortcode);
      if urlIndex != -1 {
        var url := urls[urlIndex];
        if IsLive(url, now) {
          var updatedUrls := urls;
          updatedUrls := updatedUrls[urlIndex := Visit(url, now)];
          urls := updatedUrls;
          target := Some(url.longUrl);
        } else {
          error := ExpiredMessage;
        }
      }
      RedirectKeepsInv(old(State()), shortcode, now);
    }
  }

  /** The walk-through of a custom-coded link with a one-minute validity:
      submitted at t0, visited at t1 before expiry, then visited at t2 after it. */
  method ExpiryScenario(validUrl: string -> bool, randomCode: nat -> string, t0: nat, t1: nat, t2: nat)
    returns (editsThrew: bool, firstTarget: Option<string>, clicksAfterFirst: nat,
             secondTarget: Option<string>, clicksAfterSecond: nat, finalError: string)
    requires validUrl("https://example.com")
    requires t0 <= t1 < t0 + MsPerMinute <= t2
    requires t0 + MsPerMinute <= MaxTimeMs
    ensures !editsThrew
    ensures firstTarget == Some("https://example.com") && clicksAfterFirst == 1
    ensures secondTarget.None? && clicksAfterSecond == 1
    ensures finalError == ExpiredMessage
  {
    var app := new App();
    var thrown1 := app.HandleInputChange(0, SetLongUrl("https://example.com"));
    var thrown2 := app.HandleInputChange(0, SetCustomCode("abc1"));
    var thrown3 := app.HandleInputChange(0, SetValidity(1));
    editsThrew := thrown1 || thrown2 || thrown3;
    var entry := UrlInput("https://example.com", "abc1", 1);
    assert app.urlInputs == [entry];
    assert CheckInput(entry, validUrl).None?;
    app.HandleSubmit(validUrl, randomCode, t0);
    assert app.urls == [MakeRecord(entry, randomCode(0), t0)];
    firstTarget := app.HandleRedirect("abc1", t1);
    clicksAfterFirst := app.urls[0].clicks;
    secondTarget := app.HandleRedirect("abc1", t2);
    clicksAfterSecond := app.urls[0].clicks;
    finalError := app.error;
  }
}
