/** How every analyzer turns its fragments and feature tags into the summary, the
    details and the user-friendly summary: the Oxford-comma listing, the 200-character
    cutoff and the leading-sentence split. */
module Assembly {
  import opened Text

  /** Where the character-cutoff policy cuts. */
  const SummaryCutoff: nat := 200
  const Ellipsis := "..."
  const SentenceSep := ". "

  /** `"A"`, `"A and B"`, `"A, B, and C"`: the listing of feature tags. */
  function OxfordList(items: seq<string>): string
    requires |items| >= 1
  {
    if |items| == 1 then items[0]
    else if |items| == 2 then items[0] + " and " + items[1]
    else Join(items[..|items| - 1], ", ") + ", and " + items[|items| - 1]
  }

  /** With three or more items the listing is the comma-join of the items in which the
      last one is preceded by "and ". */
  lemma OxfordListAsJoin(items: seq<string>)
    requires |items| >= 3
    ensures OxfordList(items) == Join(items[..|items| - 1] + ["and " + items[|items| - 1]], ", ")
  {
    var n := |items|;
    JoinConcat(items[..n - 1], ["and " + items[n - 1]], ", ");
  }

  lemma ContainsInfix(a: string, b: string, c: string)
    ensures Contains(a + b + c, b)
  {
    assert (a + b + c)[|a|..|a| + |b|] == b;
    assert OccursAt(a + b + c, b, |a|);
  }

  /** Text occurring in `x` still occurs once `x` is surrounded by more text. */
  lemma ContainsWithin(a: string, x: string, c: string, t: string)
    requires Contains(x, t)
    ensures Contains(a + x + c, t)
  {
    var i: nat :| i <= |x| && OccursAt(x, t, i);
    assert (a + x + c)[|a| + i..|a| + i + |t|] == x[i..i + |t|];
    assert OccursAt(a + x + c, t, |a| + i);
  }

  /** Each part of a join occurs in it. */
  lemma JoinMentionsEach(parts: seq<string>, sep: string)
    ensures forall k :: 0 <= k < |parts| ==> Contains(Join(parts, sep), parts[k])
  {
    forall k | 0 <= k < |parts|
      ensures Contains(Join(parts, sep), parts[k])
    {
      JoinMentions(parts, sep, k);
    }
  }

  lemma {:induction false} JoinMentions(parts: seq<string>, sep: string, k: nat)
    requires k < |parts|
    ensures Contains(Join(parts, sep), parts[k])
    decreases k
  {
    ContainsSelf(parts[0]);
    if |parts| > 1 {
      var rest := Join(parts[1..], sep);
      assert Join(parts, sep) == parts[0] + sep + rest;
      if k == 0 {
        ContainsLeft(parts[0], sep, parts[0]);
        ContainsLeft(parts[0] + sep, rest, parts[0]);
      } else {
        JoinMentions(parts[1..], sep, k - 1);
        assert parts[1..][k - 1] == parts[k];
        ContainsRight(parts[0] + sep, rest, parts[k]);
      }
    }
  }

  /** The listing names every tag. */
  lemma OxfordListMentionsEach(items: seq<string>)
    requires |items| >= 1
    ensures forall k :: 0 <= k < |items| ==> Contains(OxfordList(items), items[k])
  {
    forall k | 0 <= k < |items|
      ensures Contains(OxfordList(items), items[k])
    {
      OxfordMentions(items, k);
    }
  }

  lemma OxfordMentions(items: seq<string>, k: nat)
    requires k < |items|
    ensures Contains(OxfordList(items), items[k])
  {
    var n := |items|;
    ContainsSelf(items[k]);
    if n == 2 {
      if k == 0 {
        ContainsLeft(items[0], " and ", items[0]);
        ContainsLeft(items[0] + " and ", items[1], items[0]);
      } else {
        ContainsRight(items[0] + " and ", items[1], items[1]);
      }
    } else if n > 2 {
      if k < n - 1 {
        OxfordMentionsInit(items, k);
      } else {
        ContainsRight(Join(items[..n - 1], ", ") + ", and ", items[n - 1], items[n - 1]);
      }
    }
  }

  lemma OxfordMentionsInit(items: seq<string>, k: nat)
    requires |items| >= 3 && k < |items| - 1
    ensures Contains(OxfordList(items), items[k])
  {
    var init := items[..|items| - 1];
    var joined := Join(init, ", ");
    JoinMentions(init, ", ", k);
    assert init[k] == items[k];
    ContainsLeft(joined, ", and ", items[k]);
    ContainsLeft(joined + ", and ", items[|items| - 1], items[k]);
  }

  // ---------------------------------------------------------------------------
  // Counted sentences

  /** "This defines <n> <noun>: ", the opening of a sentence that counts what it lists. */
  function Counted(n: nat, noun: string): (r: string)
    ensures StartsWith(r, "This defines ") && EndsWith(r, ": ")
    ensures |r| == |NatToString(n)| + |noun| + 16
    ensures r[13..13 + |NatToString(n)|] == NatToString(n)
    ensures DigitsValue(r[13..13 + |NatToString(n)|]) == n
    ensures r[13 + |NatToString(n)|] == ' '
  {
    var r := "This defines " + NatToString(n) + " " + noun + ": ";
    assert r[13..13 + |NatToString(n)|] == NatToString(n);
    NatToStringRoundTrip(n);
    assert r[..13] == "This defines ";
    assert r[|r| - 2..] == ": ";
    r
  }

  /** The user-friendly summary: "In simple terms, <subject> <listing>." with `fallback`
      completing the sentence when no tag was found. */
  function FeatureSummary(subject: string, fallback: string, tags: seq<string>): string
  {
    if tags == [] then "In simple terms, " + subject + " " + fallback
    else "In simple terms, " + subject + " " + OxfordList(tags) + "."
  }

  /** The user-friendly summary opens with its subject and, when it lists tags, ends the
      sentence with ".". */
  lemma FeatureSummaryFrame(subject: string, fallback: string, tags: seq<string>)
    ensures StartsWith(FeatureSummary(subject, fallback, tags), "In simple terms, " + subject + " ")
    ensures tags != [] ==> EndsWith(FeatureSummary(subject, fallback, tags), ".")
  {
    var prefix := "In simple terms, " + subject + " ";
    if tags == [] {
      Framed(prefix, fallback, []);
      assert prefix + fallback + [] == prefix + fallback;
    } else {
      Framed(prefix, OxfordList(tags), ".");
    }
  }

  /** The four grammatical forms of the user-friendly summary. */
  lemma FeatureSummaryGrammar(subject: string, fallback: string, tags: seq<string>)
    ensures var prefix := "In simple terms, " + subject + " ";
      && (|tags| == 0 ==> FeatureSummary(subject, fallback, tags) == prefix + fallback)
      && (|tags| == 1 ==> FeatureSummary(subject, fallback, tags) == prefix + tags[0] + ".")
      && (|tags| == 2 ==> FeatureSummary(subject, fallback, tags) == prefix + (tags[0] + " and " + tags[1]) + ".")
      && (|tags| >= 3 ==>
            FeatureSummary(subject, fallback, tags)
            == prefix + Join(tags[..|tags| - 1] + ["and " + tags[|tags| - 1]], ", ") + ".")
  {
    if |tags| >= 3 {
      OxfordListAsJoin(tags);
    }
  }

  /** The user-friendly summary names every tag found. */
  lemma FeatureSummaryMentions(subject: string, fallback: string, tags: seq<string>)
    ensures forall k :: 0 <= k < |tags| ==> Contains(FeatureSummary(subject, fallback, tags), tags[k])
  {
    var prefix := "In simple terms, " + subject + " ";
    if |tags| >= 1 {
      OxfordListMentionsEach(tags);
      forall k | 0 <= k < |tags|
        ensures Contains(FeatureSummary(subject, fallback, tags), tags[k])
      {
        ContainsRight(prefix, OxfordList(tags), tags[k]);
        ContainsLeft(prefix + OxfordList(tags), ".", tags[k]);
      }
    }
  }

  /** A summary and the details that go with it. */
  datatype Split = Split(summary: string, details: string)

  /** The character-cutoff policy: text over 200 characters keeps its first 200 in the
      summary, marked with "...", and the rest becomes the details. */
  function CutoffSplit(full: string): (r: Split)
    ensures |full| <= SummaryCutoff ==> r.summary == full && r.details == ""
    ensures |full| > SummaryCutoff ==>
      && |r.summary| == SummaryCutoff + |Ellipsis| && EndsWith(r.summary, Ellipsis)
      && r.summary[..SummaryCutoff] + r.details == full
      && |r.details| == |full| - SummaryCutoff
  {
    if |full| > SummaryCutoff then Split(full[..SummaryCutoff] + Ellipsis, full[SummaryCutoff..])
    else Split(full, "")
  }

  /** The first-sentence policy: the first part is the summary and the others, joined
      by " ", the details; with no parts the summary is a fixed sentence. */
  function LeadSplit(parts: seq<string>, fallback: string): (r: Split)
    ensures parts == [] ==> r == Split(fallback, "")
    ensures parts != [] ==> r.summary == parts[0]
    ensures |parts| == 1 ==> r.details == ""
    ensures |parts| > 1 ==> Join(parts, " ") == r.summary + " " + r.details
  {
    if parts == [] then Split(fallback, "")
    else Split(parts[0], if |parts| > 1 then Join(parts[1..], " ") else "")
  }

  /** The sentence-count policy keeping `lead` leading sentences (2 for Python, 1 for
      Java): with at least one ". " the text is split on ". ", the first `lead` pieces
      rejoined form the summary (with a final "."), the others the details; without one
      the cutoff policy applies. */
  function SentenceSplit(full: string, lead: nat): Split
    requires 1 <= lead <= 2
  {
    var pieces := SplitOn(full, SentenceSep);
    if |pieces| >= 2 then
      Split(Join(pieces[..lead], SentenceSep) + ".",
            if |pieces| > lead then Join(pieces[lead..], SentenceSep) else "")
    else CutoffSplit(full)
  }

  /** When more sentences exist than the summary keeps, summary, a space and details
      rebuild the full text exactly. */
  lemma SentenceSplitReconstructs(full: string, lead: nat)
    requires 1 <= lead <= 2
    requires |SplitOn(full, SentenceSep)| > lead
    ensures full == SentenceSplit(full, lead).summary + " " + SentenceSplit(full, lead).details
  {
    var pieces := SplitOn(full, SentenceSep);
    var head := Join(pieces[..lead], SentenceSep);
    var tail := Join(pieces[lead..], SentenceSep);
    assert SentenceSplit(full, lead) == Split(head + ".", tail);
    JoinSplit(full, SentenceSep);
    JoinConcat(pieces[..lead], pieces[lead..], SentenceSep);
    assert pieces[..lead] + pieces[lead..] == pieces;
    assert full == head + SentenceSep + tail;
    DotSpaceRegroup(head, tail);
  }

  lemma DotSpaceRegroup(head: string, tail: string)
    ensures head + ". " + tail == (head + ".") + " " + tail
  {
  }

  /** With at least two sentences the summary is the leading one or two of them, each
      followed by its ". " separator except the last, which gets a plain ".". */
  lemma SentenceSplitSummary(full: string, lead: nat)
    requires 1 <= lead <= 2
    requires |SplitOn(full, SentenceSep)| >= 2
    ensures var pieces := SplitOn(full, SentenceSep);
      && (lead == 1 ==> SentenceSplit(full, lead).summary == pieces[0] + ".")
      && (lead == 2 ==> SentenceSplit(full, lead).summary == pieces[0] + SentenceSep + pieces[1] + ".")
  {
    var pieces := SplitOn(full, SentenceSep);
    assert pieces[..1] == [pieces[0]];
    assert pieces[..2] == [pieces[0], pieces[1]];
    assert pieces[..2][1..] == [pieces[1]];
    assert Join(pieces[..2], SentenceSep) == pieces[0] + SentenceSep + Join([pieces[1]], SentenceSep);
  }

  /** When the explanation is several sentences joined by " " and the first ends in "."
      with no ". " inside, the one-sentence summary is exactly that first sentence and the
      details are everything after it. */
  lemma LeadSentence(parts: seq<string>)
    requires |parts| >= 2
    requires EndsWith(parts[0], ".") && !Contains(parts[0], SentenceSep)
    ensures SentenceSplit(Join(parts, " "), 1).summary == parts[0]
    ensures Join(parts, " ") == parts[0] + " " + SentenceSplit(Join(parts, " "), 1).details
  {
    var p := parts[0];
    var h := p[..|p| - 1];
    var rest := Join(parts[1..], " ");
    var full := Join(parts, " ");
    assert p[|p| - 1..] == ".";
    assert p == h + p[|p| - 1..];
    assert full == h + SentenceSep + rest;
    assert OccursAt(full, SentenceSep, |h|);
    assert full[..|p|] == p;
    forall j: nat | j < |h|
      ensures !OccursAt(full, SentenceSep, j)
    {
      assert !OccursAt(p, SentenceSep, j);
    }
    var found := FindFrom(full, SentenceSep, 0);
    assert found.Some? && found.value == |h|;
    assert SplitOn(full, SentenceSep)[0] == h;
    SentenceSplitSummary(full, 1);
    SentenceSplitReconstructs(full, 1);
  }

  /** With exactly as many sentences as the summary keeps, the summary is the whole text
      plus a "." and the details are empty. */
  lemma SentenceSplitWhole(full: string)
    requires |SplitOn(full, SentenceSep)| == 2
    ensures SentenceSplit(full, 2) == Split(full + ".", "")
  {
    var pieces := SplitOn(full, SentenceSep);
    JoinSplit(full, SentenceSep);
    assert pieces[..2] == pieces;
  }

  /** The cutoff policy is used exactly when the text has no ". ". */
  lemma SentenceSplitFallsBack(full: string, lead: nat)
    requires 1 <= lead <= 2
    ensures !Contains(full, SentenceSep) <==> |SplitOn(full, SentenceSep)| < 2
    ensures !Contains(full, SentenceSep) ==> SentenceSplit(full, lead) == CutoffSplit(full)
  {
    SplitCountIff(full, SentenceSep);
  }

  // ---------------------------------------------------------------------------
  // Rule tables

  /** The entries of a rule table whose rule fired, in table order: the fragments or the
      feature tags a fixed sequence of detection rules produces. */
  function Selected<T>(table: seq<T>, fired: seq<bool>): (r: seq<T>)
    requires |fired| == |table|
    ensures |r| <= |table|
    ensures forall k :: 0 <= k < |table| && fired[k] ==> table[k] in r
    ensures forall n :: 0 <= n < |r| ==> exists k :: 0 <= k < |table| && fired[k] && table[k] == r[n]
    ensures r == [] <==> forall k :: 0 <= k < |fired| ==> !fired[k]
  {
    if table == [] then []
    else (if fired[0] then [table[0]] else []) + Selected(table[1..], fired[1..])
  }

  /** The positions at or after `from` of the rules that fired, in increasing order. */
  function FiredFrom(fired: seq<bool>, from: nat): (r: seq<nat>)
    requires from <= |fired|
    ensures forall n :: 0 <= n < |r| ==> from <= r[n] < |fired| && fired[r[n]]
    ensures forall k :: from <= k < |fired| && fired[k] ==> k in r
    ensures forall a, b :: 0 <= a < b < |r| ==> r[a] < r[b]
    decreases |fired| - from
  {
    if from == |fired| then []
    else (if fired[from] then [from] else []) + FiredFrom(fired, from + 1)
  }

  /** The positions of the rules that fired, in increasing order. */
  function FiredIndices(fired: seq<bool>): seq<nat>
  {
    FiredFrom(fired, 0)
  }

  /** The selection is exactly the table entries at the fired positions, in table
      order: entry `n` of the selection is the entry of the `n`-th rule that fired. */
  lemma SelectedByIndices<T>(table: seq<T>, fired: seq<bool>)
    requires |fired| == |table|
    ensures |Selected(table, fired)| == |FiredIndices(fired)|
    ensures forall n :: 0 <= n < |FiredIndices(fired)| ==>
      Selected(table, fired)[n] == table[FiredIndices(fired)[n]]
  {
    SelectedSuffix(table, fired, 0);
    assert table[0..] == table && fired[0..] == fired;
  }

  lemma {:induction false} SelectedSuffix<T>(table: seq<T>, fired: seq<bool>, from: nat)
    requires |fired| == |table| && from <= |table|
    ensures |Selected(table[from..], fired[from..])| == |FiredFrom(fired, from)|
    ensures forall n :: 0 <= n < |FiredFrom(fired, from)| ==>
      Selected(table[from..], fired[from..])[n] == table[FiredFrom(fired, from)[n]]
    decreases |table| - from
  {
    if from < |table| {
      SelectedSuffix(table, fired, from + 1);
      assert table[from..][1..] == table[from + 1..];
      assert fired[from..][1..] == fired[from + 1..];
    }
  }

  /** The entries of `xs` not in `out`, in their order; Python's
      `[x for x in xs if x not in out]`. */
  function Excluding(xs: seq<string>, out: seq<string>): (r: seq<string>)
    ensures |r| <= |xs|
    ensures forall x :: x in r <==> x in xs && x !in out
  {
    if xs == [] then []
    else
      assert forall x :: x in xs <==> x == xs[0] || x in xs[1..];
      (if xs[0] in out then [] else [xs[0]]) + Excluding(xs[1..], out)
  }

  /** A kept entry is kept as often as it occurs, and an excluded one not at all. */
  lemma {:induction false} ExcludingCounts(xs: seq<string>, out: seq<string>)
    ensures forall x :: multiset(Excluding(xs, out))[x] == if x in out then 0 else multiset(xs)[x]
    decreases |xs|
  {
    if xs != [] {
      ExcludingCounts(xs[1..], out);
      assert xs == [xs[0]] + xs[1..];
    }
  }

  /** The filter works entry by entry: a lone entry is kept exactly when it is not
      excluded, and filtering a concatenation filters each part and keeps their order.
      Together these fix the result, order and repeats included. */
  lemma ExcludingOne(x: string, out: seq<string>)
    ensures Excluding([x], out) == if x in out then [] else [x]
  {
  }

  lemma {:induction false} ExcludingConcat(a: seq<string>, b: seq<string>, out: seq<string>)
    ensures Excluding(a + b, out) == Excluding(a, out) + Excluding(b, out)
    decreases |a|
  {
    if a == [] {
      assert a + b == b;
    } else {
      var ab := a + b;
      assert ab[0] == a[0] && ab[1..] == a[1..] + b;
      ExcludingConcat(a[1..], b, out);
      var head := if a[0] in out then [] else [a[0]];
      calc {
        Excluding(ab, out);
        head + Excluding(a[1..] + b, out);
        head + (Excluding(a[1..], out) + Excluding(b, out));
        (head + Excluding(a[1..], out)) + Excluding(b, out);
      }
    }
  }

  /** Excluding nothing that occurs keeps the whole sequence. */
  lemma {:induction false} ExcludingNone(xs: seq<string>, out: seq<string>)
    requires forall x :: x in xs ==> x !in out
    ensures Excluding(xs, out) == xs
  {
    if xs != [] {
      assert xs[0] in xs;
      assert forall x :: x in xs[1..] ==> x in xs;
      ExcludingNone(xs[1..], out);
    }
  }

  ghost predicate Distinct<T>(s: seq<T>)
  {
    forall i, j :: 0 <= i < j < |s| ==> s[i] != s[j]
  }

  /** In a table without repeats an entry is selected exactly when its rule fired, and
      no entry is selected twice. */
  lemma {:induction false} SelectedExactlyFired<T>(table: seq<T>, fired: seq<bool>)
    requires |fired| == |table| && Distinct(table)
    ensures forall k :: 0 <= k < |table| ==> (table[k] in Selected(table, fired) <==> fired[k])
    ensures Distinct(Selected(table, fired))
    decreases |table|
  {
    if table != [] {
      var rest := Selected(table[1..], fired[1..]);
      SelectedExactlyFired(table[1..], fired[1..]);
      assert table[0] !in table[1..];
      assert table[0] !in rest;
      forall k | 1 <= k < |table|
        ensures table[k] in Selected(table, fired) <==> fired[k]
      {
        assert table[k] == table[1..][k - 1];
        assert fired[k] == fired[1..][k - 1];
      }
    }
  }
}
