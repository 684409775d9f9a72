/** The extension-string search of native/egl_diagnostics.c. Extension strings are lists of
    names separated by spaces (EGL 1.4, section 3.3, eglQueryString). */
module ExtensionTokens {
  import opened Common

  /** A C string: its terminator is the end of the sequence. */
  type CString = s: string | '\0' !in s witness ""

  // ------------------------------------------------------------------ occurrences

  predicate OccursAt(text: string, name: string, i: nat) {
    i + |name| <= |text| && forall j | 0 <= j < |name| :: text[i + j] == name[j]
  }

  /** The occurrence is delimited on both sides by a space or an end of the string. */
  predicate AlignedAt(text: string, name: string, i: nat) {
    && OccursAt(text, name, i)
    && (i == 0 || text[i - 1] == ' ')
    && (i + |name| == |text| || text[i + |name|] == ' ')
  }

  /** strstr: the first occurrence at or after `from`. */
  method StrStr(text: string, from: nat, name: string) returns (hit: Option<nat>)
    requires from <= |text|
    ensures hit.None? ==> forall i | from <= i :: !OccursAt(text, name, i)
    ensures hit.Some? ==> from <= hit.value && OccursAt(text, name, hit.value)
    ensures hit.Some? ==> forall i | from <= i < hit.value :: !OccursAt(text, name, i)
  {
    var i := from;
    while i + |name| <= |text|
      invariant from <= i
      invariant forall j | from <= j < i :: !OccursAt(text, name, j)
    {
      if OccursAt(text, name, i) { return Some(i); }
      i := i + 1;
    }
    return None;
  }

  // --------------------------------------------------------- the search and its result

  /** The result of the search for any non-empty name: continue after each misaligned hit,
      skipping the whole name. */
  ghost predicate Found(text: string, name: string, from: nat)
    requires name != "" && from <= |text|
    decreases |text| - from
  {
    exists i | from <= i <= |text| ::
      && OccursAt(text, name, i)
      && (forall j | from <= j < i :: !OccursAt(text, name, j))
      && (AlignedAt(text, name, i) || Found(text, name, i + |name|))
  }

  method EglExtensionPresent(extensions: Option<CString>, name: Option<CString>) returns (present: bool)
    ensures present <==>
      extensions.Some? && name.Some? && name.value != "" && Found(extensions.value, name.value, 0)
  {
    if extensions.None? || name.None? || name.value == "" { return false; }
    var text, key := extensions.value, name.value;
    var nameLength := |key|;
    var cursor := 0;
    while true
      invariant cursor <= |text|
      invariant Found(text, key, 0) <==> Found(text, key, cursor)
      decreases |text| - cursor
    {
      var hit := StrStr(text, cursor, key);
      if hit.None? { return false; }
      ghost var from := cursor;
      cursor := hit.value;
      var before := if cursor == 0 then ' ' else text[cursor - 1];
      var after := if cursor + nameLength < |text| then text[cursor + nameLength] else '\0';
      NoTerminator(text, cursor);
      if (before == ' ' || before == '\0') && (after == ' ' || after == '\0') { return true; }
      FirstHitOnly(text, key, from, cursor);
      cursor := cursor + nameLength;
    }
  }

  lemma NoTerminator(text: CString, i: nat)
    requires i <= |text|
    ensures forall k | 0 <= k < |text| :: text[k] != '\0'
  {
    forall k | 0 <= k < |text| ensures text[k] != '\0' {
      assert text[k] in text;
    }
  }

  /** Only the first hit matters to the search that starts at `from`. */
  lemma {:induction false} FirstHitOnly(text: string, name: string, from: nat, i: nat)
    requires name != "" && from <= i && OccursAt(text, name, i)
    requires forall j | from <= j < i :: !OccursAt(text, name, j)
    ensures Found(text, name, from) <==> AlignedAt(text, name, i) || Found(text, name, i + |name|)
  {
    if Found(text, name, from) {
      var k :| from <= k <= |text| && OccursAt(text, name, k)
        && (forall j | from <= j < k :: !OccursAt(text, name, j))
        && (AlignedAt(text, name, k) || Found(text, name, k + |name|));
      assert k == i;
    }
  }

  // ------------------------------------------------------------------------- tokens

  /** The position of the first space, or the length. */
  function FirstSpace(text: string): (k: nat)
    ensures k <= |text| && (k < |text| ==> text[k] == ' ')
    ensures forall j | 0 <= j < k :: text[j] != ' '
  {
    if text == "" || text[0] == ' ' then 0 else 1 + FirstSpace(text[1..])
  }

  /** The non-empty pieces of the text split on spaces. */
  function Tokens(text: string): set<string> {
    var k := FirstSpace(text);
    (if k == 0 then {} else {text[..k]}) + (if k == |text| then {} else Tokens(text[k + 1..]))
  }

  /** Occurrences are the same in the text and in a suffix that starts after a space. */
  lemma {:induction false} AlignedInSuffix(text: string, name: string, cut: nat, i: nat)
    requires 0 < cut <= |text| && text[cut - 1] == ' '
    ensures AlignedAt(text[cut..], name, i) <==> AlignedAt(text, name, cut + i)
  {
    assert forall j | 0 <= j < |text| - cut :: text[cut..][j] == text[cut + j];
    if OccursAt(text, name, cut + i) {
      forall j | 0 <= j < |name| ensures text[cut..][i + j] == name[j] {
        assert text[cut + i + j] == name[j];
      }
    }
    if OccursAt(text[cut..], name, i) {
      forall j | 0 <= j < |name| ensures text[cut + i + j] == name[j] {
        assert text[cut..][i + j] == name[j];
      }
    }
  }

  lemma {:induction false} LeadingToken(text: string)
    ensures var name := text[..FirstSpace(text)];
      ' ' !in name && AlignedAt(text, name, 0)
  {
  }

  lemma {:induction false} TokenIsAligned(text: string, name: string) returns (i: nat)
    requires name in Tokens(text)
    ensures ' ' !in name && AlignedAt(text, name, i)
  {
    var k := FirstSpace(text);
    if k > 0 && name == text[..k] {
      LeadingToken(text);
      i := 0;
    } else {
      var j := TokenIsAligned(text[k + 1..], name);
      AlignedInSuffix(text, name, k + 1, j);
      i := k + 1 + j;
    }
  }

  lemma NoSpaceInside(text: string, name: string, i: nat, p: nat)
    requires OccursAt(text, name, i) && ' ' !in name && i <= p < i + |name|
    ensures text[p] != ' '
  {
    var j := p - i;
    assert text[i + j] == name[j];
  }

  lemma {:induction false} AlignedIsToken(text: string, name: string, i: nat)
    requires AlignedAt(text, name, i) && ' ' !in name && name != ""
    ensures name in Tokens(text)
  {
    var k := FirstSpace(text);
    if i > k {
      AlignedInSuffix(text, name, k + 1, i - k - 1);
      AlignedIsToken(text[k + 1..], name, i - k - 1);
    } else {
      assert i == 0;
      assert text[0] == name[0];
      if k < |name| { NoSpaceInside(text, name, 0, k); }
      assert text[..k] == name;
    }
  }

  // ------------------------------------------------------- the search finds all tokens

  /** The hard direction: skipping the whole name after a misaligned hit at `i` never
      jumps over an aligned occurrence at `k`, when the name has no space. */
  lemma {:induction false} SkipIsSafe(text: string, name: string, i: nat, k: nat)
    requires name != "" && ' ' !in name
    requires OccursAt(text, name, i) && AlignedAt(text, name, k) && i < k
    ensures i + |name| <= k
  {
    if k < i + |name| { NoSpaceInside(text, name, i, k - 1); }
  }

  lemma {:induction false} FoundIsAligned(text: string, name: string, from: nat) returns (k: nat)
    requires name != "" && from <= |text| && Found(text, name, from)
    ensures AlignedAt(text, name, k)
    decreases |text| - from
  {
    k :| from <= k <= |text| && OccursAt(text, name, k)
      && (forall j | from <= j < k :: !OccursAt(text, name, j))
      && (AlignedAt(text, name, k) || Found(text, name, k + |name|));
    if !AlignedAt(text, name, k) { k := FoundIsAligned(text, name, k + |name|); }
  }

  lemma {:induction false} AlignedIsFound(text: string, name: string, from: nat, k: nat)
    requires name != "" && ' ' !in name && from <= k && AlignedAt(text, name, k)
    ensures Found(text, name, from)
    decreases |text| - from
  {
    var i := FirstOccurrence(text, name, from, k);
    if !AlignedAt(text, name, i) {
      SkipIsSafe(text, name, i, k);
      AlignedIsFound(text, name, i + |name|, k);
    }
  }

  lemma {:induction false} FirstOccurrence(text: string, name: string, from: nat, k: nat) returns (i: nat)
    requires from <= k && OccursAt(text, name, k)
    ensures from <= i <= k && OccursAt(text, name, i)
    ensures forall j | from <= j < i :: !OccursAt(text, name, j)
  {
    i := from;
    while !OccursAt(text, name, i)
      invariant from <= i <= k
      invariant forall j | from <= j < i :: !OccursAt(text, name, j)
      decreases k - i
    {
      i := i + 1;
    }
  }

  /** For space-free names the search succeeds exactly on the tokens of the text. */
  lemma {:induction false} FoundIsToken(text: string, name: string)
    requires name != "" && ' ' !in name
    ensures Found(text, name, 0) <==> name in Tokens(text)
  {
    if name in Tokens(text) {
      var k := TokenIsAligned(text, name);
      AlignedIsFound(text, name, 0, k);
    }
    if Found(text, name, 0) {
      var k := FoundIsAligned(text, name, 0);
      AlignedIsToken(text, name, k);
    }
  }

  /** And the restriction to space-free names is exactly what is needed. */
  lemma {:induction false} FoundIsTokenIffSpaceFree(name: CString)
    requires name != ""
    ensures (forall text: CString :: Found(text, name, 0) <==> name in Tokens(text)) <==> ' ' !in name
  {
    if ' ' in name {
      assert AlignedAt(name, name, 0);
      assert Found(name, name, 0);
      if name in Tokens(name) { var i := TokenIsAligned(name, name); }
    } else {
      forall text: CString ensures Found(text, name, 0) <==> name in Tokens(text) {
        FoundIsToken(text, name);
      }
    }
  }

  /** With a space in the name a skip can even jump over a properly delimited occurrence. */
  lemma SkipLosesSpacedName()
    ensures AlignedAt("xa a a", "a a", 3) && !Found("xa a a", "a a", 0)
  {
    var text, name := "xa a a", "a a";
    assert OccursAt(text, name, 1);
    assert text[0] != name[0] && !OccursAt(text, name, 0);
    assert forall j | 4 <= j :: !OccursAt(text, name, j);
    FirstHitOnly(text, name, 0, 1);
  }
}
