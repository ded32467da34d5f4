/** The file name of a downloaded card image. */
module Download {
  import opened Text
  import Cards

  /** What every card file name ends with. */
  const Suffix: string := "-gena-card.png"

  /** `s.replace(/\s+/g, "-")`: each maximal run of whitespace becomes one `-`. */
  function DashRuns(s: string): (r: string)
    ensures |r| <= |s|
    ensures s != [] <==> r != []
    decreases |s|
  {
    if s == [] then []
    else if IsSpace(s[0]) then "-" + DashRuns(s[Span(SpaceClass, s)..])
    else [s[0]] + DashRuns(s[1..])
  }

  /** No whitespace is left after the replacement. */
  lemma {:induction false} DashRunsNoSpace(s: string)
    ensures NoSpace(DashRuns(s))
    decreases |s|
  {
    if s != [] {
      var rest := if IsSpace(s[0]) then s[Span(SpaceClass, s)..] else s[1..];
      DashRunsNoSpace(rest);
      var r := DashRuns(rest);
      var head := if IsSpace(s[0]) then '-' else s[0];
      assert DashRuns(s) == [head] + r;
      assert forall i :: 1 <= i < |r| + 1 ==> ([head] + r)[i] == r[i - 1];
    }
  }

  /** A string without whitespace is left as it is. */
  lemma {:induction false} DashRunsOfNoSpace(s: string)
    requires NoSpace(s)
    ensures DashRuns(s) == s
    decreases |s|
  {
    if s != [] {
      assert NoSpace(s[1..]) by {
        assert forall i :: 0 <= i < |s| - 1 ==> s[1..][i] == s[i + 1];
      }
      DashRunsOfNoSpace(s[1..]);
    }
  }

  /** Replacing the runs a second time changes nothing. */
  lemma DashRunsIdempotent(s: string)
    ensures DashRuns(DashRuns(s)) == DashRuns(s)
  {
    DashRunsNoSpace(s);
    DashRunsOfNoSpace(DashRuns(s));
  }

  /** A leading run of whitespace becomes a single leading `-`. */
  lemma DashRunsLeadingRun(w: string, s: string)
    requires w != [] && AllSpace(w)
    requires s == [] || !IsSpace(s[0])
    ensures DashRuns(w + s) == "-" + DashRuns(s)
  {
    SpanOfRun(SpaceClass, w, s);
    assert (w + s)[|w|..] == s;
  }

  /** A run ends at the first character that is not whitespace. */
  lemma {:induction false} SpanWithin(a: string, b: string)
    requires Span(SpaceClass, a) < |a|
    ensures Span(SpaceClass, a + b) == Span(SpaceClass, a)
    decreases |a|
  {
    if IsSpace(a[0]) {
      assert (a + b)[1..] == a[1..] + b;
      SpanWithin(a[1..], b);
    }
  }

  /** When the first part ends in a character that is not whitespace, no run
      crosses the join, and the replacement works part by part. */
  lemma {:induction false} DashRunsAppend(a: string, b: string)
    requires a != [] && !IsSpace(a[|a| - 1])
    ensures DashRuns(a + b) == DashRuns(a) + DashRuns(b)
    decreases |a|, 1
  {
    if IsSpace(a[0]) {
      DashRunsAppendRun(a, b);
    } else {
      DashRunsAppendChar(a, b);
    }
  }

  /** A string ending in a character that is not whitespace does not start
      with a run that reaches its end. */
  lemma SpanBeforeEnd(a: string)
    requires a != [] && !IsSpace(a[|a| - 1])
    ensures Span(SpaceClass, a) < |a|
  {
    SpanRun(SpaceClass, a);
  }

  /** `DashRunsAppend` when the first part starts with a whitespace run. */
  lemma {:induction false} DashRunsAppendRun(a: string, b: string)
    requires a != [] && !IsSpace(a[|a| - 1]) && IsSpace(a[0])
    ensures DashRuns(a + b) == DashRuns(a) + DashRuns(b)
    decreases |a|, 0
  {
    var n := Span(SpaceClass, a);
    SpanBeforeEnd(a);
    SpanWithin(a, b);
    var rest := a[n..];
    assert (a + b)[n..] == rest + b;
    assert rest[|rest| - 1] == a[|a| - 1];
    DashRunsAppend(rest, b);
    calc {
      DashRuns(a + b);
      "-" + DashRuns(rest + b);
      "-" + (DashRuns(rest) + DashRuns(b));
      ("-" + DashRuns(rest)) + DashRuns(b);
      DashRuns(a) + DashRuns(b);
    }
  }

  /** `DashRunsAppend` when the first part starts with another character. */
  lemma {:induction false} DashRunsAppendChar(a: string, b: string)
    requires a != [] && !IsSpace(a[|a| - 1]) && !IsSpace(a[0])
    ensures DashRuns(a + b) == DashRuns(a) + DashRuns(b)
    decreases |a|, 0
  {
    if |a| == 1 {
      assert (a + b)[1..] == b;
    } else {
      assert (a + b)[1..] == a[1..] + b;
      DashRunsAppend(a[1..], b);
    }
  }

  lemma SuffixNoSpace()
    ensures NoSpace(Suffix)
  {
  }

  lemma EndsWith(base: string, suffix: string)
    ensures (base + suffix)[|base + suffix| - |suffix|..] == suffix
  {
    assert (base + suffix)[|base|..] == suffix;
  }

  /** The name of the downloaded image for a draft recipient: the untrimmed
      recipient, or the fallback when it is empty, with whitespace runs
      replaced by `-`, followed by the suffix. */
  function DownloadName(recipient: string): (name: string)
    ensures NoSpace(name)
    ensures |name| > |Suffix| && name[|name| - |Suffix|..] == Suffix
  {
    var base := DashRuns(OrElse(recipient, Cards.FallbackRecipient));
    DashRunsNoSpace(OrElse(recipient, Cards.FallbackRecipient));
    EndsWith(base, Suffix);
    SuffixNoSpace();
    NoSpaceConcat(base, Suffix);
    base + Suffix
  }

  /** An empty recipient gives the fallback name. */
  lemma DownloadNameEmpty(recipient: string)
    requires recipient == []
    ensures DownloadName(recipient) == Cards.FallbackRecipient + Suffix
  {
    var name := Cards.FallbackRecipient;
    assert OrElse(recipient, name) == name;
    assert NoSpace(name);
    DashRunsOfNoSpace(name);
  }

  /** A name without whitespace is used as it is. */
  lemma DownloadNameOfPlain(name: string)
    requires name != [] && NoSpace(name)
    ensures DownloadName(name) == name + Suffix
  {
    DashRunsOfNoSpace(name);
  }

  /** The recipient is not trimmed: leading whitespace becomes a leading `-`. */
  lemma DownloadNameLeadingSpace(w: string, name: string)
    requires w != [] && AllSpace(w)
    requires name != [] && NoSpace(name)
    ensures DownloadName(w + name) == "-" + name + Suffix
  {
    DashRunsLeadingRun(w, name);
    DashRunsOfNoSpace(name);
  }

  /** Two words separated by any whitespace are joined by one `-`. */
  lemma DownloadNameTwoWords(first: string, w: string, last: string)
    requires first != [] && NoSpace(first)
    requires w != [] && AllSpace(w)
    requires last != [] && NoSpace(last)
    ensures DownloadName(first + w + last) == first + "-" + last + Suffix
  {
    assert !IsSpace(first[|first| - 1]);
    assert first + w + last == first + (w + last);
    DashRunsAppend(first, w + last);
    DashRunsOfNoSpace(first);
    DownloadNameLeadingSpace(w, last);
    DashRunsLeadingRun(w, last);
    DashRunsOfNoSpace(last);
  }
}
