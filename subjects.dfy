/**
 * The subject list of the settings (script.js lines 21-26 and the
 * add-subject handler at lines 57-65): the free text is trimmed, and the
 * result is appended only when it is non-empty and not yet listed.
 */
module Subjects {
  import opened Wrappers

  /**
   * The characters String.prototype.trim removes: the ECMAScript WhiteSpace
   * set (tab, vertical tab, form feed, no-break space, byte order mark and
   * every space separator) and the LineTerminator set.
   */
  predicate IsSpace(c: char) {
    var n := c as int;
    n == 0x09 || n == 0x0A || n == 0x0B || n == 0x0C || n == 0x0D || n == 0x20 ||
    n == 0xA0 || n == 0x1680 || (0x2000 <= n <= 0x200A) || n == 0x2028 || n == 0x2029 ||
    n == 0x202F || n == 0x205F || n == 0x3000 || n == 0xFEFF
  }

  /** Number of leading white-space characters. */
  function LeadWidth(s: string): (w: nat)
    ensures w <= |s|
    ensures forall i :: 0 <= i < w ==> IsSpace(s[i])
    ensures w < |s| ==> !IsSpace(s[w])
  {
    if s != [] && IsSpace(s[0]) then 1 + LeadWidth(s[1..]) else 0
  }

  /** Number of trailing white-space characters. */
  function TrailWidth(s: string): (w: nat)
    ensures w <= |s|
    ensures forall i :: |s| - w <= i < |s| ==> IsSpace(s[i])
    ensures w < |s| ==> !IsSpace(s[|s| - 1 - w])
  {
    if s != [] && IsSpace(s[|s| - 1]) then 1 + TrailWidth(s[..|s| - 1]) else 0
  }

  /**
   * `value.trim()`: the window of `s` that starts at its first non-space
   * character and ends at its last one; every non-space character of `s`
   * lies inside it, and it neither starts nor ends with white space.
   */
  function Trim(s: string): (r: string)
    ensures |r| <= |s|
    ensures LeadWidth(s) + |r| <= |s| && r == s[LeadWidth(s)..LeadWidth(s) + |r|]
    ensures forall i :: 0 <= i < |s| && !IsSpace(s[i]) ==> LeadWidth(s) <= i < LeadWidth(s) + |r|
    ensures r != [] ==> !IsSpace(r[0]) && !IsSpace(r[|r| - 1])
  {
    var rest := s[LeadWidth(s)..];
    rest[..|rest| - TrailWidth(rest)]
  }

  /** Trimming twice is trimming once. */
  lemma TrimIdempotent(s: string)
    ensures Trim(Trim(s)) == Trim(s)
  {
    var r := Trim(s);
    assert LeadWidth(r) == 0;
    var rest := r[LeadWidth(r)..];
    assert rest == r;
    assert TrailWidth(r) == 0;
  }

  predicate NoDuplicates(xs: seq<string>) {
    forall i, j :: 0 <= i < j < |xs| ==> xs[i] != xs[j]
  }

  /**
   * The subject list after the add-subject handler runs on the text `input`:
   * the old list is kept in order as a prefix; the trimmed text is appended
   * exactly when it is non-empty and not already present; so a list free of
   * duplicates stays free of them.
   */
  function WithSubject(subjects: seq<string>, input: string): (r: seq<string>)
    ensures subjects <= r && |r| <= |subjects| + 1
    ensures |r| == |subjects| + 1 <==> Trim(input) != [] && Trim(input) !in subjects
    ensures |r| == |subjects| + 1 ==> r[|subjects|] == Trim(input)
    ensures Trim(input) != [] ==> Trim(input) in r
    ensures NoDuplicates(subjects) ==> NoDuplicates(r)
  {
    var v := Trim(input);
    if v == [] || v in subjects then subjects else subjects + [v]
  }

  /** Submitting the same text again changes nothing. */
  lemma WithSubjectIdempotent(subjects: seq<string>, input: string)
    ensures WithSubject(WithSubject(subjects, input), input) == WithSubject(subjects, input)
  {
  }

  /** The value of the mode selector stored in the settings. */
  datatype Mode = Timer | Stopwatch

  /** The subjects used when no settings were stored. */
  const DefaultSubjects: seq<string> := ["数学", "国語", "英語", "理科", "社会"]

  /** The `settings` object: the mode and the ordered subject list. */
  class Settings {
    var mode: Mode
    var subjects: seq<string>

    /**
     * Startup: the stored settings when there are any (given here already
     * decoded), otherwise timer mode with the five default subjects.
     */
    constructor Load(stored: Option<(Mode, seq<string>)>)
      ensures stored.None? ==> mode == Timer && subjects == DefaultSubjects
      ensures stored.Some? ==> mode == stored.value.0 && subjects == stored.value.1
    {
      match stored
      case None =>
        mode, subjects := Timer, DefaultSubjects;
      case Some(saved) =>
        mode, subjects := saved.0, saved.1;
    }

    /**
     * The add-subject handler; `added` tells whether the list changed (and
     * the handler went on to persist it and select the new subject).
     */
    method AddSubject(input: string) returns (added: bool)
      modifies this
      ensures subjects == WithSubject(old(subjects), input)
      ensures added <==> subjects != old(subjects)
      ensures mode == old(mode)
    {
      var v := Trim(input);
      if v == [] || v in subjects {
        return false;
      }
      subjects := subjects + [v];
      added := true;
    }
  }

  /** The default list is free of duplicates, so WithSubject keeps the list of a fresh start free of them. */
  lemma DefaultSubjectsDistinct()
    ensures NoDuplicates(DefaultSubjects)
  {
  }
}
