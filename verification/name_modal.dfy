/** The name dialog of UserNameModal.tsx: the guard on submitting, the Enter key, and when
    the submit button is enabled. A name counts when its trimmed form is at least two
    UTF-16 code units long. */
module NameModal {
  import opened Wrappers
  import opened JsText
  import opened Users

  datatype ModalState = ModalState(name: string, isSubmitting: bool)

  /** `name.trim().length >= 2`. */
  predicate LongEnough(name: string) {
    Utf16Length(Trim(name)) >= 2
  }

  /** `handleSubmit`: a name too short is ignored; otherwise the dialog starts submitting
      and `onSubmit` receives the trimmed name (the second component). */
  function HandleSubmit(s: ModalState): (r: (ModalState, Option<string>))
    ensures r.1.Some? <==> LongEnough(s.name)
    ensures r.1.None? ==> r.0 == s
    ensures r.1.Some? ==> r.0 == ModalState(s.name, true) && r.1.value == Trim(s.name)
    ensures r.1.Some? ==> |r.1.value| >= 1 && IsTrimmed(r.1.value)
  {
    if !LongEnough(s.name) then (s, None)
    else (s.(isSubmitting := true), Some(Trim(s.name)))
  }

  /** `handleKeyPress`: Enter submits a long enough name; any other key does nothing. */
  function HandleKeyPress(s: ModalState, key: string): (r: (ModalState, Option<string>))
    ensures r.1.Some? <==> key == "Enter" && LongEnough(s.name)
    ensures r.1.None? ==> r.0 == s
    ensures r.1.Some? ==> r == HandleSubmit(s)
  {
    if key == "Enter" && LongEnough(s.name) then HandleSubmit(s) else (s, None)
  }

  /** The submit button's `disabled` attribute. */
  predicate SubmitDisabled(s: ModalState) {
    !LongEnough(s.name) || s.isSubmitting
  }

  /** An enabled button submits, and once submitted the button is disabled. */
  lemma EnabledButtonSubmits(s: ModalState)
    requires !SubmitDisabled(s)
    ensures HandleSubmit(s).1.Some?
    ensures SubmitDisabled(HandleSubmit(s).0)
  {
  }

  /** Trimming a trimmed name changes nothing. */
  lemma TrimIdempotent(s: string)
    ensures Trim(Trim(s)) == Trim(s)
  {
  }

  /** A name the dialog accepts passes the server's guard, and when it is new the server
      stores exactly that name: the server's own trim changes nothing. */
  lemma AcceptedNameReachesServer(s: ModalState, t: Table, freshId: string, now: string,
                                  readOk: bool, writeOk: bool)
    requires HandleSubmit(s).1.Some?
    ensures var n := HandleSubmit(s).1.value;
            var reply := CreateOrGetUser(t, Str(n), freshId, now, readOk, writeOk);
            && !(reply.result.Err? && reply.result.error.status == 400)
            && (reply.result.Ok? && FindByName(t, n).None? ==> reply.result.value.name == n)
  {
    TrimmedNameReachesServer(HandleSubmit(s).1.value, t, freshId, now, readOk, writeOk);
  }

  /** The server-side half: a non-empty trimmed name is stored as it is. */
  lemma TrimmedNameReachesServer(n: string, t: Table, freshId: string, now: string,
                                 readOk: bool, writeOk: bool)
    requires |n| >= 1 && IsTrimmed(n)
    ensures var reply := CreateOrGetUser(t, Str(n), freshId, now, readOk, writeOk);
            && !(reply.result.Err? && reply.result.error.status == 400)
            && (reply.result.Ok? && FindByName(t, n).None? ==> reply.result.value.name == n)
  {
    assert Trim(n) == n;
    assert !AllSpaces(n) by { assert !IsJsSpace(n[0]); }
    assert Truthy(Str(n));
  }

  /** A single character outside the Basic Multilingual Plane is two UTF-16 code units,
      so a one-emoji name passes the dialog. */
  lemma OneAstralCharacterIsLongEnough()
    ensures LongEnough("\U{1F600}")
  {
    assert !IsJsSpace('\U{1F600}');
    assert Trim("\U{1F600}") == "\U{1F600}";
  }

  /** The server accepts some names the dialog refuses: a single visible character, say,
      so the two-character rule is the dialog's alone. */
  lemma ServerAcceptsShorterNames()
    ensures !LongEnough("a")
    ensures AcceptableName(Str("a"))
  {
    assert Trim("a") == "a";
    assert !IsJsSpace('a');
  }
}
