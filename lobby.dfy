/** The landing page of `js/main.js`: meeting codes, and the create and
    join buttons, which validate the typed name (and code), write the
    session storage and navigate to the meeting page.

    `Math.random` is an input: the six indices it would pick. */
module Lobby {
  import opened Strings

  const CodeAlphabet: string := "ABCDEFGHIJKLMNOPQRSTUVWXYZ0123456789"
  const CodeLength: nat := 6

  predicate IsCodeChar(c: char) {
    'A' <= c <= 'Z' || '0' <= c <= '9'
  }

  /** The `i`-th character of the alphabet: the capital letters, then the digits. */
  function AlphabetChar(i: nat): char
    requires i < 36
  {
    if i < 26 then ('A' as int + i) as char else ('0' as int + (i - 26)) as char
  }

  /** The alphabet is the 26 capital letters and the 10 digits, each once. */
  lemma AlphabetShape()
    ensures |CodeAlphabet| == 36
    ensures forall i :: 0 <= i < 36 ==> CodeAlphabet[i] == AlphabetChar(i) && IsCodeChar(CodeAlphabet[i])
    ensures forall i, j :: 0 <= i < j < 36 ==> CodeAlphabet[i] != CodeAlphabet[j]
  {
    assert CodeAlphabet[..26] == "ABCDEFGHIJKLMNOPQRSTUVWXYZ";
    assert CodeAlphabet[26..] == "0123456789";
    assert forall i :: 0 <= i < 36 ==> CodeAlphabet[i] == AlphabetChar(i);
  }

  /** The position of a code character in the alphabet. */
  function IndexOfCodeChar(c: char): (i: nat)
    requires IsCodeChar(c)
    ensures i < 36 && CodeAlphabet[i] == c
  {
    if 'A' <= c <= 'Z' then c as int - 'A' as int else 26 + (c as int - '0' as int)
  }

  /** The random picks stand for `Math.floor(Math.random() * 36)`. */
  predicate ValidPicks(picks: seq<nat>) {
    |picks| == CodeLength && forall i :: 0 <= i < |picks| ==> picks[i] < |CodeAlphabet|
  }

  /** The code the picks spell. */
  function CodeOf(picks: seq<nat>): (code: string)
    requires forall i :: 0 <= i < |picks| ==> picks[i] < |CodeAlphabet|
    ensures |code| == |picks|
    ensures forall i :: 0 <= i < |picks| ==> code[i] == CodeAlphabet[picks[i]] && IsCodeChar(code[i])
  {
    AlphabetShape();
    if picks == [] then [] else CodeOf(picks[..|picks| - 1]) + [CodeAlphabet[picks[|picks| - 1]]]
  }

  /** The picks that spell a code. */
  function PicksOf(code: string): (picks: seq<nat>)
    requires forall i :: 0 <= i < |code| ==> IsCodeChar(code[i])
    ensures |picks| == |code|
    ensures forall i :: 0 <= i < |code| ==> picks[i] < |CodeAlphabet| && CodeAlphabet[picks[i]] == code[i]
  {
    if code == [] then [] else PicksOf(code[..|code| - 1]) + [IndexOfCodeChar(code[|code| - 1])]
  }

  /** Codes and picks correspond one to one: every code over the alphabet is
      spelt by exactly one choice of picks. */
  lemma CodeRoundTrip(picks: seq<nat>)
    requires forall i :: 0 <= i < |picks| ==> picks[i] < |CodeAlphabet|
    ensures PicksOf(CodeOf(picks)) == picks
  {
    AlphabetShape();
    var back := PicksOf(CodeOf(picks));
    forall i | 0 <= i < |picks|
      ensures back[i] == picks[i]
    {
      assert CodeAlphabet[back[i]] == CodeAlphabet[picks[i]];
    }
  }

  lemma PicksRoundTrip(code: string)
    requires forall i :: 0 <= i < |code| ==> IsCodeChar(code[i])
    ensures CodeOf(PicksOf(code)) == code
  {
  }

  /** `generateMeetingCode`: append one alphabet character per pick. */
  method GenerateMeetingCode(picks: seq<nat>) returns (code: string)
    requires ValidPicks(picks)
    ensures |code| == CodeLength
    ensures forall i :: 0 <= i < |code| ==> IsCodeChar(code[i])
    ensures code == CodeOf(picks)
  {
    code := "";
    for i := 0 to CodeLength
      invariant code == CodeOf(picks[..i])
    {
      assert picks[..i + 1][..i] == picks[..i];
      code := code + [CodeAlphabet[picks[i]]];
    }
    assert picks[..CodeLength] == picks;
  }

  /** A generated code read back from the join field, whatever surrounding
      whitespace or lower case it was typed with, names the same meeting. */
  lemma TypedCodeJoinsSameMeeting(picks: seq<nat>, pre: string, post: string)
    requires ValidPicks(picks)
    requires forall i :: 0 <= i < |pre| ==> IsJsWhitespace(pre[i])
    requires forall i :: 0 <= i < |post| ==> IsJsWhitespace(post[i])
    ensures Upper(Trim(pre + Lower(CodeOf(picks)) + post)) == CodeOf(picks)
  {
    var code := CodeOf(picks);
    LowerCodeShape(code);
    TrimAround(pre, Lower(code), post);
  }

  /** Lower-casing a code gives letters and digits, none of them whitespace,
      and upper-casing it again gives the code back. */
  lemma LowerCodeShape(code: string)
    requires forall i :: 0 <= i < |code| ==> IsCodeChar(code[i])
    ensures forall i :: 0 <= i < |code| ==> !IsJsWhitespace(Lower(code)[i])
    ensures Upper(Lower(code)) == code
  {
    assert forall i :: 0 <= i < |code| ==> UpperChar(LowerChar(code[i])) == code[i];
  }

  const MeetingPath: string := "/meeting?code="

  /** The join button's validation, in order: the name, then the code. */
  datatype JoinOutcome = NameMissing | CodeMissing | Join(name: string, code: string)

  function JoinOutcomeOf(nameInput: string, codeInput: string): (o: JoinOutcome)
    ensures o.NameMissing? <==> Trim(nameInput) == ""
    ensures o.CodeMissing? <==> Trim(nameInput) != "" && Upper(Trim(codeInput)) == ""
    ensures o.Join? ==> o.name == Trim(nameInput) && o.code == Upper(Trim(codeInput)) && o.name != "" && o.code != ""
  {
    var name := Trim(nameInput);
    var code := Upper(Trim(codeInput));
    if name == "" then NameMissing
    else if code == "" then CodeMissing
    else Join(name, code)
  }

  /** The page: `sessionStorage` and the address it navigated to, if any. */
  class Page {
    var storage: map<string, string>
    var location: Option<string>

    constructor (storage: map<string, string>)
      ensures this.storage == storage && location == None
    {
      this.storage := storage;
      location := None;
    }

    /** The create button: a blank name stops before anything is stored;
        otherwise store the name and `isHost = "true"`, and go to the new
        meeting. */
    method OnCreateClick(nameInput: string, picks: seq<nat>)
      requires ValidPicks(picks)
      modifies this
      ensures Trim(nameInput) == "" ==> storage == old(storage) && location == old(location)
      ensures Trim(nameInput) != "" ==>
        storage == old(storage)["userName" := Trim(nameInput)]["isHost" := "true"] &&
        location == Some(MeetingPath + CodeOf(picks))
    {
      var name := Trim(nameInput);
      if name == "" {
        return;
      }
      var code := GenerateMeetingCode(picks);
      storage := storage["userName" := name]["isHost" := "true"];
      location := Some(MeetingPath + code);
    }

    /** The join button: a blank name, then a blank code, stops before
        anything is stored; otherwise store the name and `isHost = "false"`,
        and go to the meeting of the trimmed, upper-cased code. */
    method OnJoinClick(nameInput: string, codeInput: string)
      modifies this
      ensures JoinOutcomeOf(nameInput, codeInput).Join? ==>
        var o := JoinOutcomeOf(nameInput, codeInput);
        storage == old(storage)["userName" := o.name]["isHost" := "false"] &&
        location == Some(MeetingPath + o.code)
      ensures !JoinOutcomeOf(nameInput, codeInput).Join? ==>
        storage == old(storage) && location == old(location)
    {
      var name := Trim(nameInput);
      var code := Upper(Trim(codeInput));
      if name == "" {
        return;
      }
      if code == "" {
        return;
      }
      storage := storage["userName" := name]["isHost" := "false"];
      location := Some(MeetingPath + code);
    }
  }
}
