/** Fitting serialised observations into a token budget, whatever the JSON escaping costs.
    A JSON string body is measured by an arbitrary function `esc` with esc("") == 0 (section 7 of RFC 8259 fixes
    which characters are escaped; no proof here depends on it). */
module OutputCaps {
  import opened Options

  const CHARS_PER_TOKEN := 4
  const MARKER := "\n[... truncated, use memory_get with id for full content]"

  function EstimateTokens(text: string): nat {
    |text| / CHARS_PER_TOKEN
  }

  function Take(s: string, n: int): string
    requires n >= 0
  {
    s[..Min(n, |s|)]
  }

  function TruncateContent(content: string, maxTokens: int): (string, bool) {
    var maxChars := maxTokens * CHARS_PER_TOKEN;
    var available := maxChars - |MARKER|;
    if |content| <= maxChars then (content, false)
    else if available > 0 then (Take(content, available) + MARKER, true)
    else if maxChars > 0 then (Take(content, maxChars), true)
    else ("", true)
  }

  /** Content is flagged exactly when it is over the budget, a flagged text fills the budget to the character with a
      beginning of the content and, where it leaves room, the marker, and truncating it again changes nothing. */
  lemma TruncationFills(content: string, maxTokens: int)
    ensures var r := TruncateContent(content, maxTokens);
      && (r.1 <==> |content| > 4 * maxTokens)
      && (if r.1 then |r.0| == Max(0, 4 * maxTokens) else r.0 == content)
      && (r.1 ==> if 4 * maxTokens > |MARKER| then
                    |r.0| > |MARKER| && r.0[|r.0| - |MARKER|..] == MARKER && r.0[..|r.0| - |MARKER|] <= content
                  else r.0 <= content)
      && EstimateTokens(r.0) <= Max(0, maxTokens)
      && TruncateContent(r.0, maxTokens).0 == r.0
      && (maxTokens >= 0 ==> !TruncateContent(r.0, maxTokens).1)
  {
  }

  /** One observation, by the lengths of its serialised forms without the characters of its content: as given, with
      a content key added if it had none, and with the truncation marks added as well. */
  datatype Obs = Obs(bare: nat, keyed: nat, marked: nat, content: Option<string>)

  /** No content key had to be added. */
  predicate HasContent(o: Obs) {
    o.keyed == o.bare
  }

  /** An observation returned whole, or with its content replaced. */
  datatype Item = Whole(obs: Obs) | Cut(obs: Obs, text: string)

  function Size(o: Obs, esc: string -> nat): nat {
    o.bare + esc(o.content.GetOr(""))
  }

  function Length(i: Item, esc: string -> nat): nat {
    match i
    case Whole(o) => o.keyed + esc(o.content.GetOr(""))
    case Cut(o, text) => o.marked + esc(text)
  }

  /** The first text tried: content and marker, as far as `safe` characters go. */
  function FirstTry(content: string, safe: int): string
    requires safe > 0
  {
    if |content| + |MARKER| <= safe then content + MARKER
    else if safe >= |MARKER| then Take(content, safe - |MARKER|) + MARKER
    else Take(content, safe)
  }

  /** How many characters of a text that is too long by `excess` survive the shrinking. */
  function ShrunkLength(length: nat, excess: int): nat {
    Max(length - Max(excess + 4, length / 4), 0)
  }

  /** The text that replaces the content, with `remaining` characters left for the whole item. */
  function CutText(o: Obs, remaining: int, esc: string -> nat): string
    requires o.marked < remaining
  {
    var content, safe := o.content.GetOr(""), remaining - o.marked - 2;
    if safe <= 0 then ""
    else
      var first := FirstTry(content, safe);
      if o.marked + esc(first) <= remaining then first
      else
        var shrunk := Take(first, ShrunkLength(|first|, o.marked + esc(first) - remaining));
        if o.marked + esc(shrunk) <= remaining then shrunk
        else
          var hard := Take(content, Max(0, safe - |MARKER|));
          if o.marked + esc(hard) <= remaining then hard else ""
  }

  function Capped(obs: seq<Obs>, remaining: int, esc: string -> nat): seq<Item> {
    if obs == [] || remaining <= 0 then []
    else
      var o := obs[0];
      if Size(o, esc) <= remaining then [Whole(o)] + Capped(obs[1..], remaining - Size(o, esc), esc)
      else if o.marked >= remaining then Capped(obs[1..], remaining, esc)
      else [Cut(o, CutText(o, remaining, esc))]
  }

  /** What is left of the budget after these observations; nothing once one was cut. */
  function Left(obs: seq<Obs>, remaining: int, esc: string -> nat): int {
    if obs == [] || remaining <= 0 then remaining
    else
      var o := obs[0];
      if Size(o, esc) <= remaining then Left(obs[1..], remaining - Size(o, esc), esc)
      else if o.marked >= remaining then Left(obs[1..], remaining, esc)
      else 0
  }

  method CutContent(o: Obs, remaining: int, esc: string -> nat) returns (text: string)
    requires o.marked < remaining
    ensures text == CutText(o, remaining, esc)
  {
    hide MARKER;
    var content, safe := o.content.GetOr(""), remaining - o.marked - 2;
    if safe <= 0 {
      return "";
    }
    if |content| + |MARKER| <= safe {
      text := content + MARKER;
    } else if safe >= |MARKER| {
      text := Take(content, safe - |MARKER|) + MARKER;
    } else {
      text := Take(content, safe);
    }
    var final := o.marked + esc(text);
    if final > remaining {
      var shrink := Max(final - remaining + 4, |text| / 4);
      text := Take(text, Max(|text| - shrink, 0));
      final := o.marked + esc(text);
      if final > remaining {
        text := Take(content, Max(0, safe - |MARKER|));
        final := o.marked + esc(text);
        if final > remaining {
          text := "";
        }
      }
    }
  }

  method CapResponse(observations: seq<Obs>, maxTokens: int, esc: string -> nat) returns (result: seq<Item>)
    requires esc("") == 0
    ensures result == Capped(observations, maxTokens * CHARS_PER_TOKEN, esc)
  {
    hide CutText;
    result := [];
    if maxTokens <= 0 || observations == [] {
      return;
    }
    var remaining := maxTokens * CHARS_PER_TOKEN;
    for i := 0 to |observations|
      invariant Capped(observations, maxTokens * CHARS_PER_TOKEN, esc)
             == result + Capped(observations[i..], remaining, esc)
    {
      if remaining <= 0 {
        return;
      }
      var o := observations[i];
      assert observations[i..][0] == o && observations[i..][1..] == observations[i + 1..];
      var size := Size(o, esc);
      if size <= remaining {
        result, remaining := result + [Whole(o)], remaining - size;
        continue;
      }
      if o.marked >= remaining {
        continue;
      }
      var text := CutContent(o, remaining, esc);
      CutFits(o, remaining, esc);
      if o.marked + esc(text) <= remaining {
        result := result + [Cut(o, text)];
      }
      return;
    }
  }

  // The budget.

  function Total(items: seq<Item>, esc: string -> nat): nat {
    if items == [] then 0 else Length(items[0], esc) + Total(items[1..], esc)
  }

  /** Characters added by giving an observation the content key it lacked. */
  function AddedKeys(items: seq<Item>): int {
    if items == [] then 0
    else (if items[0].Whole? then items[0].obs.keyed - items[0].obs.bare else 0) + AddedKeys(items[1..])
  }

  lemma CutFits(o: Obs, remaining: int, esc: string -> nat)
    requires esc("") == 0 && o.marked < remaining
    ensures o.marked + esc(CutText(o, remaining, esc)) <= remaining
  {
  }

  /** The items stay within the budget but for the keys that were added. */
  lemma {:induction false} StaysInBudget(obs: seq<Obs>, remaining: nat, esc: string -> nat)
    requires esc("") == 0
    ensures Total(Capped(obs, remaining, esc), esc) <= remaining + AddedKeys(Capped(obs, remaining, esc))
  {
    if obs != [] && remaining > 0 {
      var o := obs[0];
      if Size(o, esc) <= remaining {
        StaysInBudget(obs[1..], remaining - Size(o, esc), esc);
        assert Capped(obs, remaining, esc)[1..] == Capped(obs[1..], remaining - Size(o, esc), esc);
      } else if o.marked >= remaining {
        StaysInBudget(obs[1..], remaining, esc);
      } else {
        CutFits(o, remaining, esc);
        assert Capped(obs, remaining, esc)[1..] == [];
      }
    }
  }

  lemma {:induction false} NoKeysAdded(obs: seq<Obs>, remaining: int, esc: string -> nat)
    requires forall o :: o in obs ==> HasContent(o)
    ensures AddedKeys(Capped(obs, remaining, esc)) == 0
  {
    if obs != [] && remaining > 0 {
      var o := obs[0];
      assert HasContent(o);
      NoKeysAdded(obs[1..], remaining - Size(o, esc), esc);
      NoKeysAdded(obs[1..], remaining, esc);
      if Size(o, esc) <= remaining {
        assert Capped(obs, remaining, esc)[1..] == Capped(obs[1..], remaining - Size(o, esc), esc);
      } else if o.marked < remaining {
        assert Capped(obs, remaining, esc)[1..] == [];
      }
    }
  }

  /** When every observation has a content key, the serialised items take at most four characters a token. */
  lemma FitsBudget(obs: seq<Obs>, maxTokens: int, esc: string -> nat)
    requires esc("") == 0 && forall o :: o in obs ==> HasContent(o)
    ensures Total(Capped(obs, maxTokens * CHARS_PER_TOKEN, esc), esc) <= Max(0, maxTokens * CHARS_PER_TOKEN)
  {
    if maxTokens > 0 {
      StaysInBudget(obs, maxTokens * CHARS_PER_TOKEN, esc);
      NoKeysAdded(obs, maxTokens * CHARS_PER_TOKEN, esc);
    }
  }

  // Exactly when the budget is kept.

  ghost predicate KeepsBudget(obs: seq<Obs>, maxTokens: nat, esc: string -> nat) {
    Total(Capped(obs, maxTokens * CHARS_PER_TOKEN, esc), esc) <= maxTokens * CHARS_PER_TOKEN
  }

  /** An observation takes some characters, and adding a content key, if it has none, takes at least four more. */
  predicate KeyCosts(o: Obs) {
    0 < o.bare && (HasContent(o) || o.keyed >= o.bare + 4)
  }

  /** The budget is kept, whatever it is, if and only if every observation has a content key. */
  lemma BudgetKeptIff(obs: seq<Obs>, esc: string -> nat)
    requires esc("") == 0 && forall o :: o in obs ==> KeyCosts(o)
    ensures (forall t: nat :: KeepsBudget(obs, t, esc)) <==> forall o :: o in obs ==> HasContent(o)
  {
    if forall o :: o in obs ==> HasContent(o) {
      forall t: nat ensures KeepsBudget(obs, t, esc) {
        FitsBudget(obs, t, esc);
      }
    } else {
      MissingKeyBreaks(obs, esc);
    }
  }

  /** With the smallest budget that all the sizes fit into, everything comes back whole, and the added key is too
      much. */
  lemma MissingKeyBreaks(obs: seq<Obs>, esc: string -> nat)
    requires forall o :: o in obs ==> KeyCosts(o)
    requires exists o :: o in obs && !HasContent(o)
    ensures !KeepsBudget(obs, (Sizes(obs, esc) + 3) / CHARS_PER_TOKEN, esc)
  {
    hide Capped;
    var t := (Sizes(obs, esc) + 3) / CHARS_PER_TOKEN;
    AllKeptIff(obs, t * CHARS_PER_TOKEN, esc);
    WholeTotal(obs, esc);
  }

  lemma {:induction false} WholeTotal(obs: seq<Obs>, esc: string -> nat)
    requires forall o :: o in obs ==> KeyCosts(o)
    ensures Total(AllWhole(obs), esc) >= Sizes(obs, esc)
    ensures (exists o :: o in obs && !HasContent(o)) ==> Total(AllWhole(obs), esc) >= Sizes(obs, esc) + 4
  {
    if obs != [] {
      var o, rest := obs[0], obs[1..];
      assert KeyCosts(o) && obs == [o] + rest;
      WholeTotal(rest, esc);
      assert AllWhole(obs)[1..] == AllWhole(rest);
    }
  }

  /** An instance: an empty object of 2 characters comes back with 15, against a budget of 4. */
  lemma MissingKeyOverruns(esc: string -> nat)
    requires esc("") == 0
    ensures !KeepsBudget([Obs(2, 15, 61, None)], 1, esc)
  {
    var o := Obs(2, 15, 61, None);
    assert [o][1..] == [] && Sizes([o], esc) == 2;
    assert o in [o] && !HasContent(o);
    MissingKeyBreaks([o], esc);
  }

  // Order, and who is cut.

  function Sources(items: seq<Item>): seq<Obs> {
    if items == [] then [] else [items[0].obs] + Sources(items[1..])
  }

  predicate Subsequence(a: seq<Obs>, b: seq<Obs>) {
    a == [] || (b != [] && (if a[0] == b[0] then Subsequence(a[1..], b[1..]) else Subsequence(a, b[1..])))
  }

  lemma {:induction false} SubsequenceSkips(a: seq<Obs>, b: seq<Obs>)
    requires b != [] && Subsequence(a, b[1..])
    ensures Subsequence(a, b)
    decreases |b|, 0
  {
    if a != [] && a[0] == b[0] {
      var c := b[1..];
      if a[0] == c[0] {
        SubsequenceSkips(a[1..], c);
      } else {
        SubsequenceTail(a, c[1..]);
        SubsequenceSkips(a[1..], c);
      }
    }
  }

  lemma {:induction false} SubsequenceTail(a: seq<Obs>, b: seq<Obs>)
    requires a != [] && Subsequence(a, b)
    ensures Subsequence(a[1..], b)
    decreases |b|, 1
  {
    if a[0] == b[0] {
      SubsequenceSkips(a[1..], b);
    } else {
      SubsequenceTail(a, b[1..]);
      SubsequenceSkips(a[1..], b);
    }
  }

  /** The result keeps the input order, and only its last item can be cut. */
  lemma {:induction false} KeepsOrder(obs: seq<Obs>, remaining: int, esc: string -> nat)
    ensures Subsequence(Sources(Capped(obs, remaining, esc)), obs)
    ensures forall i :: 0 <= i < |Capped(obs, remaining, esc)| - 1 ==> Capped(obs, remaining, esc)[i].Whole?
  {
    if obs != [] && remaining > 0 {
      var o, r := obs[0], Capped(obs, remaining, esc);
      if Size(o, esc) <= remaining {
        var rest := Capped(obs[1..], remaining - Size(o, esc), esc);
        KeepsOrder(obs[1..], remaining - Size(o, esc), esc);
        assert r[1..] == rest && Sources(r)[1..] == Sources(rest);
      } else if o.marked >= remaining {
        KeepsOrder(obs[1..], remaining, esc);
        SubsequenceSkips(Sources(r), obs);
      } else {
        assert r[1..] == [] && Sources(r) == [o];
      }
    }
  }

  // Which observations are dropped.

  lemma {:induction false} CapAppend(a: seq<Obs>, b: seq<Obs>, remaining: int, esc: string -> nat)
    ensures Capped(a + b, remaining, esc) == Capped(a, remaining, esc) + Capped(b, Left(a, remaining, esc), esc)
    decreases |a|
  {
    if a == [] {
      assert a + b == b;
    } else if remaining > 0 {
      assert (a + b)[1..] == a[1..] + b;
      CapAppend(a[1..], b, remaining - Size(a[0], esc), esc);
      CapAppend(a[1..], b, remaining, esc);
    }
  }

  /** The budget left is the budget less the sizes of the items returned so far, until one is cut. */
  lemma {:induction false} LeftIsUnspent(obs: seq<Obs>, remaining: int, esc: string -> nat)
    requires remaining >= 0
    ensures Left(obs, remaining, esc) > 0 ==>
              Left(obs, remaining, esc) == remaining
                - (Total(Capped(obs, remaining, esc), esc) - AddedKeys(Capped(obs, remaining, esc)))
  {
    if obs != [] && remaining > 0 {
      var o := obs[0];
      if Size(o, esc) <= remaining {
        LeftIsUnspent(obs[1..], remaining - Size(o, esc), esc);
        assert Capped(obs, remaining, esc)[1..] == Capped(obs[1..], remaining - Size(o, esc), esc);
      } else if o.marked >= remaining {
        LeftIsUnspent(obs[1..], remaining, esc);
      }
    }
  }

  /** An observation reached with budget left adds nothing exactly when it does not fit whole and its form with
      empty content leaves no room: also when that form would have fitted to the character. */
  lemma DroppedIff(before: seq<Obs>, o: Obs, remaining: int, esc: string -> nat)
    requires Left(before, remaining, esc) > 0
    ensures Capped(before + [o], remaining, esc) == Capped(before, remaining, esc)
       <==> Size(o, esc) > Left(before, remaining, esc) && o.marked >= Left(before, remaining, esc)
    ensures Capped(before + [o], remaining, esc) == Capped(before, remaining, esc)
         || exists i :: Capped(before + [o], remaining, esc) == Capped(before, remaining, esc) + [i] && i.obs == o
  {
    var r := Left(before, remaining, esc);
    CapAppend(before, [o], remaining, esc);
    assert Capped([o][1..], r - Size(o, esc), esc) == [] && Capped([o][1..], r, esc) == [];
    var added := Capped([o], r, esc);
    assert |added| == 1 ==> added == [added[0]];
  }

  function Sizes(obs: seq<Obs>, esc: string -> nat): nat {
    if obs == [] then 0 else Size(obs[0], esc) + Sizes(obs[1..], esc)
  }

  function AllWhole(obs: seq<Obs>): seq<Item> {
    if obs == [] then [] else [Whole(obs[0])] + AllWhole(obs[1..])
  }

  /** Everything comes back whole exactly when it all fits. */
  lemma {:induction false} AllKeptIff(obs: seq<Obs>, remaining: nat, esc: string -> nat)
    requires forall o :: o in obs ==> o.bare > 0
    ensures Capped(obs, remaining, esc) == AllWhole(obs) <==> Sizes(obs, esc) <= remaining
  {
    if obs != [] {
      var o, rest := obs[0], obs[1..];
      assert o.bare > 0 && AllWhole(obs) == [Whole(o)] + AllWhole(rest);
      if Size(o, esc) <= remaining {
        AllKeptIff(rest, remaining - Size(o, esc), esc);
        var kept := Capped(rest, remaining - Size(o, esc), esc);
        assert Capped(obs, remaining, esc) == [Whole(o)] + kept;
        assert ([Whole(o)] + kept)[1..] == kept && ([Whole(o)] + AllWhole(rest))[1..] == AllWhole(rest);
      } else {
        FewerThanAll(rest, remaining, esc);
        FewerThanAll(obs, remaining, esc);
        assert Sizes(obs, esc) > remaining;
        assert remaining > 0 && o.marked < remaining ==> Capped(obs, remaining, esc)[0].Cut?;
      }
    }
  }

  lemma {:induction false} FewerThanAll(obs: seq<Obs>, remaining: int, esc: string -> nat)
    ensures |Capped(obs, remaining, esc)| <= |obs| == |AllWhole(obs)|
  {
    if obs != [] {
      FewerThanAll(obs[1..], remaining - Size(obs[0], esc), esc);
      FewerThanAll(obs[1..], remaining, esc);
    }
  }

  /** A text made of a beginning of the content and a beginning of the marker. */
  ghost predicate FromBoth(text: string, content: string) {
    exists m, n :: 0 <= m <= |content| && 0 <= n <= |MARKER| && text == content[..m] + MARKER[..n]
  }

  lemma TakeFromBoth(content: string, m: nat, n: nat, length: nat)
    requires m <= |content| && n <= |MARKER|
    ensures FromBoth(Take(content[..m] + MARKER[..n], length), content)
  {
    hide MARKER;
    var text, k := content[..m] + MARKER[..n], Min(length, m + n);
    assert text[..k] == content[..Min(k, m)] + MARKER[..k - Min(k, m)];
  }

  /** What replaces the content is a beginning of it, followed by a beginning of the marker. */
  lemma CutKeepsPrefix(o: Obs, remaining: int, esc: string -> nat)
    requires o.marked < remaining
    ensures FromBoth(CutText(o, remaining, esc), o.content.GetOr(""))
  {
    hide MARKER, FromBoth;
    var content, safe := o.content.GetOr(""), remaining - o.marked - 2;
    assert content[..0] + MARKER[..0] == "";
    TakeFromBoth(content, 0, 0, 0);
    if safe > 0 {
      var m := if |content| + |MARKER| <= safe then |content|
      else if safe >= |MARKER| then safe - |MARKER| else Min(safe, |content|);
      var n := if safe >= |MARKER| then |MARKER| else 0;
      var first, hard := FirstTry(content, safe), Max(0, safe - |MARKER|);
      assert m <= |content| && first == content[..m] + MARKER[..n];
      TakeFromBoth(content, m, n, |first|);
      TakeFromBoth(content, m, n, ShrunkLength(|first|, o.marked + esc(first) - remaining));
      assert content[..|content|] + MARKER[..0] == content;
      TakeFromBoth(content, |content|, 0, hard);
      assert Take(first, |first|) == first;
    }
  }

  /** Where nothing needs escaping, a cut item wastes at most two characters, unless all of the content and the
      marker went in. */
  lemma PlainTextFills(o: Obs, remaining: int, esc: string -> nat)
    requires forall s :: esc(s) == |s|
    requires o.marked + |MARKER| + 2 <= remaining < o.marked + esc(o.content.GetOr("")) + |MARKER|
    ensures remaining - 2 <= o.marked + esc(CutText(o, remaining, esc)) <= remaining
  {
  }

  // How much content a cut item keeps.

  /** Leaving characters off the end of a text saves at least one each, as escaping never makes a character shorter. */
  ghost predicate Dense(esc: string -> nat) {
    forall s: string, n: nat {:trigger esc(s[..n])} :: n <= |s| ==> esc(s[..n]) + (|s| - n) <= esc(s)
  }

  /** How many characters of the content the first text has. */
  function FirstKept(content: string, safe: int): nat
    requires safe > 0
  {
    if |content| + |MARKER| <= safe then |content|
    else if safe >= |MARKER| then safe - |MARKER|
    else Min(safe, |content|)
  }

  /** The first text uses all the room there is, and the marker stands behind the content when there is room for it. */
  lemma FirstFills(content: string, safe: int)
    requires safe > 0
    ensures var m := FirstKept(content, safe);
      && m <= |content| && FirstTry(content, safe) == content[..m] + (if safe >= |MARKER| then MARKER else "")
      && |FirstTry(content, safe)| == Min(safe, if safe >= |MARKER| then |content| + |MARKER| else |content|)
  {
  }

  /** With escapes: a text that overruns by `excess` characters loses four more than that, or a quarter, whichever is
      more, and no more: the later fallbacks are never reached. So at least that much of the content is kept. */
  lemma EscapesCostLittle(o: Obs, remaining: int, esc: string -> nat)
    requires esc("") == 0 && Dense(esc) && o.marked + 2 < remaining
    ensures var content, safe := o.content.GetOr(""), remaining - o.marked - 2;
      var first, text := FirstTry(content, safe), CutText(o, remaining, esc);
      var excess := o.marked + esc(first) - remaining;
      var kept := Min(FirstKept(content, safe), |text|);
      && text <= first
      && |text| == (if excess <= 0 then |first| else Max(0, |first| - Max(excess + 4, |first| / 4)))
      && kept <= |content| && text[..kept] == content[..kept]
      && (excess > 0 ==> kept >= Min(FirstKept(content, safe), |first| - Max(excess + 4, |first| / 4)))
  {
    hide FirstTry, FirstKept, CutText, Take, Dense, ShrunkLength;
    var content, safe := o.content.GetOr(""), remaining - o.marked - 2;
    var first := FirstTry(content, safe);
    if o.marked + esc(first) > remaining {
      ShrunkFits(o, remaining, esc, first);
    }
    CutTextIs(o, remaining, esc);
    FirstStarts(content, safe);
    BeginningKept(content, FirstKept(content, safe), first, CutText(o, remaining, esc));
  }

  lemma FirstStarts(content: string, safe: int)
    requires safe > 0
    ensures var (m, first) := (FirstKept(content, safe), FirstTry(content, safe));
      m <= |content| && m <= |first| && first[..m] == content[..m]
  {
    FirstFills(content, safe);
  }

  /** The text is the first one if that fits, else the shrunk one if that fits. */
  lemma CutTextIs(o: Obs, remaining: int, esc: string -> nat)
    requires o.marked + 2 < remaining
    ensures var first := FirstTry(o.content.GetOr(""), remaining - o.marked - 2);
      var excess := o.marked + esc(first) - remaining;
      var shrunk := Take(first, ShrunkLength(|first|, excess));
      && (excess <= 0 ==> CutText(o, remaining, esc) == first)
      && (excess > 0 && o.marked + esc(shrunk) <= remaining ==> CutText(o, remaining, esc) == shrunk)
  {
    hide FirstTry, Take, ShrunkLength;
  }

  lemma BeginningKept(content: string, m: nat, first: string, text: string)
    requires m <= |content| && m <= |first| && first[..m] == content[..m] && text <= first
    ensures var kept := Min(m, |text|); text[..kept] == content[..kept]
  {
    var kept := Min(m, |text|);
    assert text[..kept] == first[..m][..kept];
    assert content[..m][..kept] == content[..kept];
  }

  /** The shrunk text fits. */
  lemma ShrunkFits(o: Obs, remaining: int, esc: string -> nat, first: string)
    requires esc("") == 0 && Dense(esc) && o.marked < remaining < o.marked + esc(first)
    ensures var excess := o.marked + esc(first) - remaining;
      var n: nat := ShrunkLength(|first|, excess);
      && n <= |first| && n == Max(0, |first| - Max(excess + 4, |first| / 4))
      && Take(first, n) == first[..n] && o.marked + esc(first[..n]) <= remaining
  {
    var excess := o.marked + esc(first) - remaining;
    var n: nat := ShrunkLength(|first|, excess);
    assert esc(first[..n]) + (|first| - n) <= esc(first);
    if n == 0 {
      assert first[..n] == "";
    }
  }
}
