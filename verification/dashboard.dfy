/** The "view a screen" action of the dashboard (web/pages/dashboard.js,
    `handleViewScreen`): the code typed into the prompt is trimmed and
    upper-cased, the whole `peers` node is fetched, and the first entry whose
    `code` equals the cleaned code and whose `online` flag is truthy decides
    where the browser goes.

    The prompt's answer and the fetch result are parameters: `None` for a
    cancelled prompt, `None` for a fetch or JSON failure. */
module Dashboard {
  import opened Wrappers
  import opened Json
  import opened Text

  datatype Outcome =
    | NoLookup                  // prompt cancelled or left empty
    | Navigate(route: string)   // a matching online peer was found
    | NotFound(code: string)    // the "not found or offline" alert
    | LookupFailed              // the "Error connecting" alert

  /** The code as it is compared: trimmed, then upper-cased. */
  function Clean(input: string): string {
    ToUpper(Trim(input))
  }

  /** `data.code === cleanCode && data.online` for a non-null record. Only
      the code and the online flag are consulted; `lastSeen` is not. */
  predicate Matches(data: Json, code: string) {
    Field(data, "code") == Some(Str(code)) && Truthy(Field(data, "online"))
  }

  /** Where `Object.entries(...).find(...)` stops: at the first matching
      entry, at the first null entry (reading its `code` throws), or past the
      end. */
  function StopAt(ms: seq<Member>, code: string): (i: nat)
    ensures i <= |ms|
    ensures forall j :: 0 <= j < i ==> ms[j].value != Null && !Matches(ms[j].value, code)
    ensures i < |ms| ==> ms[i].value == Null || Matches(ms[i].value, code)
  {
    if |ms| == 0 then 0
    else if ms[0].value == Null || Matches(ms[0].value, code) then 0
    else
      var i := StopAt(ms[1..], code);
      assert forall j :: 0 < j < 1 + i ==> ms[j] == ms[1..][j - 1];
      1 + i
  }

  /** The route the dashboard opens for a peer: keyed by the store key. */
  function RemoteRoute(key: string): string {
    "/remote?peer=" + key
  }

  function ViewScreen(input: Option<string>, read: Option<Json>): (r: Outcome)
    ensures r == NoLookup <==> input.None? || input == Some("")
    ensures read.None? && r != NoLookup ==> r == LookupFailed
    ensures r.NotFound? ==>
              && read.Some? && r.code == Clean(input.value)
              && forall i :: 0 <= i < |OwnEntries(read.value)| ==>
                   !Matches(OwnEntries(read.value)[i].value, r.code)
    ensures r.Navigate? ==>
              && read.Some?
              && var ms := OwnEntries(read.value);
                 exists i :: && 0 <= i < |ms| && Matches(ms[i].value, Clean(input.value))
                             && r.route == RemoteRoute(ms[i].key)
                             && forall j :: 0 <= j < i ==> !Matches(ms[j].value, Clean(input.value))
    ensures input.Some? && input.value != "" && read.Some? ==>
              var code, ms := Clean(input.value), OwnEntries(read.value);
              && ((forall j :: 0 <= j < |ms| ==> ms[j].value != Null && !Matches(ms[j].value, code)) ==>
                    r == NotFound(code))
              && forall i :: && 0 <= i < |ms| && (ms[i].value == Null || Matches(ms[i].value, code))
                             && (forall j :: 0 <= j < i ==> ms[j].value != Null && !Matches(ms[j].value, code))
                             ==> r == (if ms[i].value == Null then LookupFailed else Navigate(RemoteRoute(ms[i].key)))
  {
    if input.None? || input.value == "" then NoLookup
    else if read.None? then LookupFailed
    else
      var code := Clean(input.value);
      var ms := OwnEntries(read.value);
      var i := StopAt(ms, code);
      StopAtIsFirstStop(ms, code);
      if i == |ms| then NotFound(code)
      else if ms[i].value == Null then LookupFailed
      else Navigate(RemoteRoute(ms[i].key))
  }

  // ---------------------------------------------------------------------------
  // Lemmas

  /** `find` stops at the first entry that matches or is null, and nowhere
      else. */
  lemma StopAtIsFirstStop(ms: seq<Member>, code: string)
    ensures forall i :: && 0 <= i < |ms| && (ms[i].value == Null || Matches(ms[i].value, code))
                        && (forall j :: 0 <= j < i ==> ms[j].value != Null && !Matches(ms[j].value, code))
                        ==> StopAt(ms, code) == i
    ensures (forall j :: 0 <= j < |ms| ==> ms[j].value != Null && !Matches(ms[j].value, code)) ==>
              StopAt(ms, code) == |ms|
  {
  }

  lemma CleanIgnoresCase(s: string)
    ensures Clean(ToUpper(s)) == Clean(s)
  {
    TrimToUpper(s);
    ToUpperIdempotent(Trim(s));
  }

  /** Typing the code in any letter case gives the same outcome. */
  lemma CaseInsensitiveInput(s: string, read: Option<Json>)
    ensures ViewScreen(Some(ToUpper(s)), read) == ViewScreen(Some(s), read)
  {
    CleanIgnoresCase(s);
  }

  /** ... but only on the input side: a stored code with a lower-case letter
      is never matched, whatever is typed. */
  lemma StoredLowerCaseNeverMatches(data: Json, input: string, k: nat)
    requires Field(data, "code").Some? && Field(data, "code").value.Str?
    requires k < |Field(data, "code").value.s| && IsLower(Field(data, "code").value.s[k])
    ensures !Matches(data, Clean(input))
  {
    ToUpperHasNoLower(Trim(input));
  }

  /** Liveness is read from `online` alone: two records that agree on `code`
      and `online` match the same inputs, however old their `lastSeen`. */
  lemma OnlineFlagNotLastSeen(a: Json, b: Json, code: string)
    requires Field(a, "code") == Field(b, "code") && Field(a, "online") == Field(b, "online")
    ensures Matches(a, code) <==> Matches(b, code)
  {
  }

  /** A present online match is found: when no entry is null and entry `i`
      matches, the dashboard navigates to a matching entry no later than `i`,
      and to `i` itself when no earlier entry matches. */
  lemma PresentMatchFound(s: string, read: Json, i: nat)
    requires s != ""
    requires i < |OwnEntries(read)| && Matches(OwnEntries(read)[i].value, Clean(s))
    requires forall j :: 0 <= j < |OwnEntries(read)| ==> OwnEntries(read)[j].value != Null
    ensures ViewScreen(Some(s), Some(read)).Navigate?
    ensures exists k :: 0 <= k <= i && Matches(OwnEntries(read)[k].value, Clean(s))
                        && ViewScreen(Some(s), Some(read)).route == RemoteRoute(OwnEntries(read)[k].key)
    ensures (forall j :: 0 <= j < i ==> !Matches(OwnEntries(read)[j].value, Clean(s))) ==>
              ViewScreen(Some(s), Some(read)) == Navigate(RemoteRoute(OwnEntries(read)[i].key))
  {
    var ms, k := OwnEntries(read), StopAt(OwnEntries(read), Clean(s));
    assert k <= i;
  }

  /** A record whose `online` is absent or falsy is never found. */
  lemma OfflineNeverMatches(data: Json, code: string)
    requires !Truthy(Field(data, "online"))
    ensures !Matches(data, code)
  {
  }

  /** An empty `peers` node gives "not found" for any non-empty input. */
  lemma NullPeersNotFound(s: string)
    requires s != ""
    ensures ViewScreen(Some(s), Some(Null)) == NotFound(Clean(s))
  {
  }

  /** A string of white space is a non-empty answer: it is looked up as the
      empty code. */
  lemma BlankInputLooksUpEmptyCode(read: Json)
    ensures ViewScreen(Some("  "), Some(read)) != NoLookup
    ensures Clean("  ") == ""
  {
    assert TrimStart("  ") == "";
  }
}
