/**
 Splitting module.prop around its description (loader/src/ptracer/monitor.cpp:720-778): a scanner copies the file into
 `pre_section` until it has read the field name, and the remainder into `post_section`. The scanner is stated for any
 field name of at least two characters.
 */
module ModuleProp {

  const DESCRIPTION: string := "description="

  const SECTION_SIZE: nat := 1024

  /** Where the scanner splits when, before position `p`, no match is under way; the end if it never does. */
  function SplitAt(field: string, text: string, p: nat): (q: nat)
    requires |field| >= 2 && p <= |text|
    ensures p <= q <= |text| && (p < |text| ==> p < q)
    decreases |text| - p, 1
  {
    if p == |text| then p
    else if text[p] != field[0] then SplitAt(field, text, p + 1)
    else SplitInside(field, text, p + 1, 1)
  }

  /** The same when the last `i` characters before `p` matched the field name. A mismatch is consumed. */
  function SplitInside(field: string, text: string, p: nat, i: nat): (q: nat)
    requires p <= |text| && 1 <= i < |field|
    ensures p <= q <= |text| && (p < |text| ==> p < q)
    decreases |text| - p, 0
  {
    if p == |text| then p
    else if text[p] != field[i] then SplitAt(field, text, p + 1)
    else if i + 1 == |field| then p + 1
    else SplitInside(field, text, p + 1, i + 1)
  }

  /** The first `i` characters of the field name stand at `s`. */
  predicate Matches(field: string, text: string, s: nat, i: nat)
  {
    s + i <= |text| && i <= |field| && forall k :: 0 <= k < i ==> text[s + k] == field[k]
  }

  predicate FieldAt(field: string, text: string, s: nat)
  {
    Matches(field, text, s, |field|)
  }

  /** A beginning of the field name, not all of it, stands at `k` and reaches up to `s`. */
  predicate RunsInto(field: string, text: string, k: nat, s: nat)
  {
    k < s && s - k < |field| && Matches(field, text, k, s - k)
  }

  predicate NoMatchUnderWay(field: string, text: string, s: nat)
  {
    forall k: nat | k < s :: !RunsInto(field, text, k, s)
  }

  predicate LineStart(text: string, s: nat)
  {
    s == 0 || (s <= |text| && text[s - 1] == '\n')
  }

  // ------------------------------------------------------------------ soundness

  /** A split before the end of the file comes right after the field name. */
  lemma {:induction false} SplitFollowsField(field: string, text: string, p: nat)
    requires |field| >= 2 && p <= |text|
    ensures SplitAt(field, text, p) < |text| ==>
              SplitAt(field, text, p) >= p + |field| && FieldAt(field, text, SplitAt(field, text, p) - |field|)
    decreases |text| - p, 1
  {
    if p == |text| {
    } else if text[p] != field[0] {
      SplitFollowsField(field, text, p + 1);
    } else {
      InsideFollowsField(field, text, p, 1);
    }
  }

  lemma {:induction false} InsideFollowsField(field: string, text: string, s: nat, i: nat)
    requires 1 <= i < |field| && Matches(field, text, s, i)
    ensures var q := SplitInside(field, text, s + i, i);
            q < |text| ==> q >= s + |field| && FieldAt(field, text, q - |field|)
    decreases |text| - s - i, 0
  {
    if s + i == |text| {
    } else if text[s + i] != field[i] {
      SplitFollowsField(field, text, s + i + 1);
    } else if i + 1 < |field| {
      InsideFollowsField(field, text, s, i + 1);
    } else {
      assert Matches(field, text, s, |field|);
    }
  }

  // --------------------------------------------------------------- completeness

  lemma {:induction false} FieldIsMatched(field: string, text: string, s: nat, i: nat)
    requires FieldAt(field, text, s) && 1 <= i < |field|
    ensures SplitInside(field, text, s + i, i) == s + |field|
    decreases |field| - i
  {
    assert text[s + i] == field[i];
    if i + 1 < |field| {
      FieldIsMatched(field, text, s, i + 1);
    }
  }

  /** The scanner never passes an occurrence that no partial match runs into. */
  lemma {:induction false} ClearFieldStops(field: string, text: string, p: nat, s: nat)
    requires |field| >= 2 && p <= s && FieldAt(field, text, s) && NoMatchUnderWay(field, text, s)
    ensures SplitAt(field, text, p) <= s + |field|
    decreases |text| - p, 1
  {
    if p == s {
      assert text[s + 0] == field[0];
      FieldIsMatched(field, text, s, 1);
    } else if text[p] != field[0] {
      ClearFieldStops(field, text, p + 1, s);
    } else {
      ClearFieldStopsInside(field, text, p, 1, s);
    }
  }

  lemma {:induction false} ClearFieldStopsInside(field: string, text: string, k: nat, i: nat, s: nat)
    requires 1 <= i < |field| && k < s && k + i <= s && Matches(field, text, k, i)
    requires FieldAt(field, text, s) && NoMatchUnderWay(field, text, s)
    ensures SplitInside(field, text, k + i, i) <= s + |field|
    decreases |text| - k - i, 0
  {
    assert !RunsInto(field, text, k, s);
    if text[k + i] != field[i] {
      ClearFieldStops(field, text, k + i + 1, s);
    } else if i + 1 < |field| {
      ClearFieldStopsInside(field, text, k, i + 1, s);
    }
  }

  /** A field name without line breaks that begins a line is such an occurrence. */
  lemma LineStartIsClear(field: string, text: string, s: nat)
    requires '\n' !in field && s <= |text| && LineStart(text, s)
    ensures NoMatchUnderWay(field, text, s)
  {
    forall k: nat | k < s
      ensures !RunsInto(field, text, k, s)
    {
      if s - k < |field| {
        var last := s - k - 1;
        assert text[k + last] == '\n' && field[last] in field;
      }
    }
  }

  lemma DescriptionHasNoLineBreak()
    ensures |DESCRIPTION| == 12 && '\n' !in DESCRIPTION
  {
  }

  // ---------------------------------------------------------- which occurrence is found

  /**
   No match is under way when the scanner comes to `s`, provided it comes there at all: every beginning of the field
   name that reaches up to `s` starts at a place where another match was under way.
   */
  predicate Entered(field: string, text: string, s: nat)
    decreases s
  {
    forall k: nat | k < s :: RunsInto(field, text, k, s) ==> !Entered(field, text, k)
  }

  /** The scanner is at `s` inside a match that began at `k`. */
  ghost predicate InsideFrom(field: string, text: string, p: nat, k: nat, s: nat)
    requires |field| >= 2 && p <= s <= |text|
  {
    RunsInto(field, text, k, s) && Entered(field, text, k) &&
    SplitAt(field, text, p) == SplitInside(field, text, s, s - k)
  }

  /** From `p` on the scanner comes to `s` without a match under way exactly if `s` is entered. */
  ghost predicate ComesTo(field: string, text: string, p: nat, s: nat)
    requires |field| >= 2 && p <= s <= |text|
  {
    if Entered(field, text, s) then SplitAt(field, text, p) == SplitAt(field, text, s)
    else exists k: nat :: k < s && InsideFrom(field, text, p, k, s)
  }

  lemma NextIsEntered(field: string, text: string, p: nat)
    requires p < |text| && |field| >= 2 && text[p] != field[0] && Entered(field, text, p)
    ensures Entered(field, text, p + 1)
  {
    forall k: nat | k < p + 1 && RunsInto(field, text, k, p + 1)
      ensures !Entered(field, text, k)
    {
      assert text[k + 0] == field[0];
      assert RunsInto(field, text, k, p);
    }
  }

  lemma MismatchIsConsumed(field: string, text: string, k: nat, i: nat)
    requires 1 <= i < |field| && k + i < |text| && text[k + i] != field[i]
    requires Matches(field, text, k, i) && Entered(field, text, k)
    ensures Entered(field, text, k + i + 1)
  {
    var next := k + i + 1;
    forall j: nat | j < next
      ensures RunsInto(field, text, j, next) ==> !Entered(field, text, j)
    {
      if RunsInto(field, text, j, next) {
        if j < k {
          assert RunsInto(field, text, j, k);
        } else if j > k {
          assert RunsInto(field, text, k, j);
        }
      }
    }
  }

  lemma {:induction false} ScannerComesTo(field: string, text: string, p: nat, s: nat)
    requires |field| >= 2 && p <= s <= |text| && Entered(field, text, p)
    requires forall k: nat | k < s :: !FieldAt(field, text, k)
    ensures ComesTo(field, text, p, s)
    decreases s - p, 1
  {
    if p == s {
    } else if text[p] != field[0] {
      NextIsEntered(field, text, p);
      ScannerComesTo(field, text, p + 1, s);
      LaterStart(field, text, p, p + 1, s);
    } else {
      ScannerComesToInside(field, text, p, p, 1, s);
    }
  }

  lemma {:induction false} ScannerComesToInside(field: string, text: string, p: nat, k: nat, i: nat, s: nat)
    requires 1 <= i < |field| && p <= k < k + i <= s <= |text|
    requires Matches(field, text, k, i) && Entered(field, text, k)
    requires SplitAt(field, text, p) == SplitInside(field, text, k + i, i)
    requires forall j: nat | j < s :: !FieldAt(field, text, j)
    ensures ComesTo(field, text, p, s)
    decreases s - k - i, 0
  {
    if k + i == s {
      assert InsideFrom(field, text, p, k, s);
    } else if text[k + i] != field[i] {
      MismatchIsConsumed(field, text, k, i);
      ScannerComesTo(field, text, k + i + 1, s);
      LaterStart(field, text, p, k + i + 1, s);
    } else {
      assert Matches(field, text, k, i + 1);
      assert !FieldAt(field, text, k);
      ScannerComesToInside(field, text, p, k, i + 1, s);
    }
  }

  lemma LaterStart(field: string, text: string, p: nat, p': nat, s: nat)
    requires |field| >= 2 && p <= p' <= s <= |text|
    requires SplitAt(field, text, p) == SplitAt(field, text, p') && ComesTo(field, text, p', s)
    ensures ComesTo(field, text, p, s)
  {
    if !Entered(field, text, s) {
      var k: nat :| k < s && InsideFrom(field, text, p', k, s);
      assert InsideFrom(field, text, p, k, s);
    }
  }

  /** A scanner that passes `s` inside a match that does not complete splits later than an occurrence at `s` ends. */
  lemma {:induction false} InsidePasses(field: string, text: string, k: nat, i: nat, s: nat)
    requires 1 <= i < |field| && k < s <= k + i <= |text| && Matches(field, text, k, i) && !FieldAt(field, text, k)
    ensures
      var q := SplitInside(field, text, k + i, i);
      q < |text| ==> q > s + |field|
    decreases |text| - k - i
  {
    if k + i == |text| {
    } else if text[k + i] != field[i] {
      SplitFollowsField(field, text, k + i + 1);
    } else {
      assert Matches(field, text, k, i + 1);
      InsidePasses(field, text, k, i + 1, s);
    }
  }

  lemma PassedFieldIsNotFound(field: string, text: string, k: nat, s: nat)
    requires |field| >= 2 && s + |field| <= |text| && k < s && InsideFrom(field, text, 0, k, s) &&
        !FieldAt(field, text, k)
    ensures SplitAt(field, text, 0) == s + |field| <==> s + |field| == |text|
  {
    InsidePasses(field, text, k, s - k, s);
  }

  /**
   For every text and every field name, the scanner splits right after the first occurrence of the field name if and
   only if it enters it, that is, no match is under way there; or if nothing follows it, when there is nothing to
   split off.
   */
  lemma FirstFieldIsFoundIff(field: string, text: string, s: nat)
    requires |field| >= 2 && FieldAt(field, text, s)
    requires forall k: nat | k < s :: !FieldAt(field, text, k)
    ensures SplitAt(field, text, 0) == s + |field| <==> Entered(field, text, s) || s + |field| == |text|
  {
    ScannerComesTo(field, text, 0, s);
    if Entered(field, text, s) {
      assert text[s + 0] == field[0];
      FieldIsMatched(field, text, s, 1);
    } else {
      var k: nat :| k < s && InsideFrom(field, text, 0, k, s);
      PassedFieldIsNotFound(field, text, k, s);
    }
  }

  /**
   For every file with a line that begins with the field name: the scanner splits no later than there, and when that
   line holds the first occurrence of the field name, the split comes right after it.
   */
  lemma SplitIsAfterDescription(text: string, s: nat)
    requires FieldAt(DESCRIPTION, text, s) && LineStart(text, s)
    ensures SplitAt(DESCRIPTION, text, 0) <= s + |DESCRIPTION|
    ensures (forall k: nat | k < s :: !FieldAt(DESCRIPTION, text, k)) ==>
              SplitAt(DESCRIPTION, text, 0) == s + |DESCRIPTION|
  {
    DescriptionHasNoLineBreak();
    LineStartIsClear(DESCRIPTION, text, s);
    ClearFieldStops(DESCRIPTION, text, 0, s);
    if forall k: nat | k < s :: !FieldAt(DESCRIPTION, text, k) {
      assert Entered(DESCRIPTION, text, s);
      FirstFieldIsFoundIff(DESCRIPTION, text, s);
    }
  }

  /** Inside a line the field name can be missed: the character that breaks a partial match is not looked at again. */
  lemma RepeatedFirstLetterIsMissed()
    ensures FieldAt(DESCRIPTION, "ddescription=x", 1)
    ensures SplitAt(DESCRIPTION, "ddescription=x", 0) == |"ddescription=x"|
  {
    var text := "ddescription=x";
    assert text[1..13] == DESCRIPTION;
    forall k | 0 <= k < 12
      ensures text[1 + k] == DESCRIPTION[k]
    {
      assert text[1 + k] == text[1..13][k];
    }
    NoFirstLetterFrom(DESCRIPTION, text, 2);
    assert SplitInside(DESCRIPTION, text, 1, 1) == SplitAt(DESCRIPTION, text, 2);
  }

  lemma {:induction false} NoFirstLetterFrom(field: string, text: string, p: nat)
    requires |field| >= 2 && p <= |text| && forall k :: p <= k < |text| ==> text[k] != field[0]
    ensures SplitAt(field, text, p) == |text|
    decreases |text| - p
  {
    if p == |text| {
    } else {
      NoFirstLetterFrom(field, text, p + 1);
    }
  }

  // ------------------------------------------------------------------ the scanner

  /** The buffers hold both parts with their terminators. */
  predicate FitsSections(field: string, text: string)
    requires |field| >= 2
  {
    SplitAt(field, text, 0) < SECTION_SIZE && |text| - SplitAt(field, text, 0) < SECTION_SIZE
  }

  /** A buffer holds `s` followed by a terminator; an empty one has not been written. */
  ghost predicate Holds(buffer: array<char>, len: nat, s: string)
    reads buffer
  {
    len == |s| && len < buffer.Length && buffer[..len] == s && (len > 0 ==> buffer[len] == '\0')
  }

  /** One character and a new terminator are stored behind what the buffer holds. */
  method Store(buffer: array<char>, len: nat, c: char, ghost s: string) returns (longer: nat)
    requires Holds(buffer, len, s) && len + 1 < buffer.Length
    modifies buffer
    ensures longer == len + 1 && Holds(buffer, longer, s + [c])
  {
    buffer[len] := c;
    buffer[len + 1] := '\0';
    longer := len + 1;
    assert buffer[..longer] == buffer[..len] + [c];
  }

  /** The innermost loop: everything that is left goes to the second buffer. */
  method FillPost(text: string, from: nat, post: array<char>) returns (postLen: nat)
    requires from <= |text| && |text| - from < post.Length
    modifies post
    ensures Holds(post, postLen, text[from..])
  {
    postLen := 0;
    var pos := from;
    while pos < |text|
      invariant from <= pos <= |text|
      invariant Holds(post, postLen, text[from..pos])
    {
      assert text[from..pos + 1] == text[from..pos] + [text[pos]];
      postLen := Store(post, postLen, text[pos], text[from..pos]);
      pos := pos + 1;
    }
    assert text[from..pos] == text[from..];
  }

  /** The scanner is at `pos`, outside any match, and has copied all it read. */
  ghost predicate Outside(field: string, text: string, pos: nat, pre: array<char>)
    requires |field| >= 2
    reads pre
  {
    pos <= |text| && Holds(pre, pos, text[..pos]) && SplitAt(field, text, pos) == SplitAt(field, text, 0)
  }

  /** The scanner is done: the first buffer holds the file up to the split, the second all the rest. */
  ghost predicate Done(field: string, text: string, pre: array<char>, preLen: nat, post: array<char>, postLen: nat)
    requires |field| >= 2
    reads pre, post
  {
    var split := SplitAt(field, text, 0);
    Holds(pre, preLen, text[..split]) && Holds(post, postLen, text[split..])
  }

  /** The middle loop, entered after the first character of the field name. It ends inside the file on a mismatch. */
  method FillInside(field: string, text: string, start: nat, pre: array<char>, post: array<char>)
    returns (pos: nat, preLen: nat, postLen: nat)
    requires |field| >= 2 && FitsSections(field, text)
    requires pre != post && pre.Length == SECTION_SIZE && post.Length == SECTION_SIZE
    requires 1 <= start <= |text| && Holds(pre, start, text[..start])
    requires SplitInside(field, text, start, 1) == SplitAt(field, text, 0)
    modifies pre, post
    ensures start <= pos <= |text|
    ensures pos < |text| ==> preLen == pos && postLen == 0 && Outside(field, text, pos, pre)
    ensures pos == |text| ==> Done(field, text, pre, preLen, post, postLen)
  {
    ghost var split := SplitAt(field, text, 0);
    pos, preLen, postLen := start, start, 0;
    var i := 1;
    while pos < |text|
      invariant start <= pos == preLen <= split <= |text| && 1 <= i < |field| && postLen == 0
      invariant Holds(pre, preLen, text[..pos])
      invariant SplitInside(field, text, pos, i) == split
    {
      assert text[..pos + 1] == text[..pos] + [text[pos]];
      preLen := Store(pre, preLen, text[pos], text[..pos]);
      pos := pos + 1;
      if text[pos - 1] != field[i] {
        if pos == |text| {
          assert text[..pos] == text;
        }
        return;
      }
      i := i + 1;
      if i == |field| {
        postLen := FillPost(text, pos, post);
        pos := |text|;
        return;
      }
    }
  }

  /**
   For every file that fits, the first buffer holds the file up to the split and the second all the rest. What follows
   about the two parts is said by `SectionsAreTheFile` and `SplitIsAfterDescription`.
   */
  method FillSections(field: string, text: string, pre: array<char>, post: array<char>)
    returns (preLen: nat, postLen: nat)
    requires |field| >= 2 && FitsSections(field, text)
    requires pre != post && pre.Length == SECTION_SIZE && post.Length == SECTION_SIZE
    modifies pre, post
    ensures Done(field, text, pre, preLen, post, postLen)
  {
    preLen, postLen := 0, 0;
    var pos := 0;
    while pos < |text|
      invariant pos <= |text|
      invariant pos < |text| || text == [] ==> preLen == pos && postLen == 0 && Outside(field, text, pos, pre)
      invariant pos == |text| && text != [] ==> Done(field, text, pre, preLen, post, postLen)
    {
      var c := text[pos];
      assert text[..pos + 1] == text[..pos] + [c];
      preLen := Store(pre, preLen, c, text[..pos]);
      pos := pos + 1;
      if c == field[0] {
        pos, preLen, postLen := FillInside(field, text, pos, pre, post);
      }
    }
  }

  /** The two parts are the whole file, and a second part is only there when the first ends with the field name. */
  lemma SectionsAreTheFile(field: string, text: string)
    requires |field| >= 2
    ensures var pre, post := text[..SplitAt(field, text, 0)], text[SplitAt(field, text, 0)..];
            pre + post == text && (post != [] ==> |pre| >= |field| && pre[|pre| - |field|..] == field)
  {
    SplitFollowsField(field, text, 0);
    var q := SplitAt(field, text, 0);
    if q < |text| {
      forall k | 0 <= k < |field|
        ensures text[..q][q - |field|..][k] == field[k]
      {
        assert text[q - |field| + k] == field[k];
      }
    }
  }
}
