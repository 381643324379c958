/** What a print's name may look like, and how a typed one is made so. */
module NameCleaning {
  import opened Text

  const NAME_MAX := 31

  predicate IsControl(c: char) { c < ' ' || c == 127 as char }

  function Visible(s: string): string {
    if s == "" then "" else Visible(s[..|s| - 1]) + if IsControl(s[|s| - 1]) then "" else [s[|s| - 1]]
  }

  function SkipBlanks(s: string): string {
    if s != "" && s[0] == ' ' then SkipBlanks(s[1..]) else s
  }

  function TrimEnd(s: string): (t: string)
    ensures t <= s && (t != "" ==> t[|t| - 1] != ' ')
  {
    if s != "" && s[|s| - 1] == ' ' then TrimEnd(s[..|s| - 1]) else s
  }

  /** Control characters go, then leading blanks, then what is too long, then trailing blanks. */
  function Cleaned(s: string): string { TrimEnd(Cut(SkipBlanks(Visible(s)), NAME_MAX)) }

  /** No control character, no blank at either end, and short enough. */
  predicate IsClean(s: string) {
    && |s| <= NAME_MAX
    && (forall i :: 0 <= i < |s| ==> !IsControl(s[i]))
    && (s != "" ==> s[0] != ' ' && s[|s| - 1] != ' ')
  }

  lemma {:induction false} VisibleHasNoControls(s: string)
    ensures forall i :: 0 <= i < |Visible(s)| ==> !IsControl(Visible(s)[i])
    ensures (forall i :: 0 <= i < |s| ==> !IsControl(s[i])) ==> Visible(s) == s
  {
    if s != "" { VisibleHasNoControls(s[..|s| - 1]); }
  }

  lemma {:induction false} SkipBlanksIsSuffix(s: string)
    ensures SkipBlanks(s) != "" ==> SkipBlanks(s)[0] != ' '
    ensures exists k :: 0 <= k <= |s| && SkipBlanks(s) == s[k..]
  {
    if s != "" && s[0] == ' ' {
      SkipBlanksIsSuffix(s[1..]);
      var k :| 0 <= k <= |s[1..]| && SkipBlanks(s[1..]) == s[1..][k..];
      assert SkipBlanks(s) == s[k + 1..];
    } else {
      assert SkipBlanks(s) == s[0..];
    }
  }

  lemma CleanedIsClean(s: string)
    ensures IsClean(Cleaned(s))
  {
    hide Visible, SkipBlanks;
    VisibleHasNoControls(s);
    SkipBlanksIsSuffix(Visible(s));
    var t := SkipBlanks(Visible(s));
    var k :| 0 <= k <= |Visible(s)| && t == Visible(s)[k..];
    assert forall i :: 0 <= i < |t| ==> !IsControl(t[i]);
  }

  /** Cleaning leaves a name alone if and only if it is clean. */
  lemma CleanedIsSameIff(s: string)
    ensures Cleaned(s) == s <==> IsClean(s)
  {
    CleanedIsClean(s);
    if IsClean(s) { VisibleHasNoControls(s); }
  }

  /** So cleaning twice is cleaning once. */
  lemma CleaningIsIdempotent(s: string)
    ensures Cleaned(Cleaned(s)) == Cleaned(s)
  {
    CleanedIsClean(s);
    CleanedIsSameIff(Cleaned(s));
  }

  lemma {:induction false} SkipBlanksSnoc(s: string, c: char)
    ensures SkipBlanks(s + [c]) == if SkipBlanks(s) == "" && c == ' ' then "" else SkipBlanks(s) + [c]
  {
    if s == "" {
      assert [c][1..] == "";
    } else if s[0] == ' ' {
      SkipBlanksSnoc(s[1..], c);
      assert (s + [c])[1..] == s[1..] + [c];
    }
  }

  /** One more character of the name being cleaned. */
  lemma OneMoreChar(s: string, c: char)
    ensures var before := Cut(SkipBlanks(Visible(s)), NAME_MAX);
            Cut(SkipBlanks(Visible(s + [c])), NAME_MAX)
            == if IsControl(c) || (before == "" && c == ' ') || |before| >= NAME_MAX then before else before + [c]
  {
    hide SkipBlanks, Visible;
    VisibleSnoc(s, c);
    if !IsControl(c) {
      SkipBlanksSnoc(Visible(s), c);
      CutSnoc(SkipBlanks(Visible(s)), c, NAME_MAX);
    }
  }

  lemma VisibleSnoc(s: string, c: char)
    ensures Visible(s + [c]) == if IsControl(c) then Visible(s) else Visible(s) + [c]
  {
    assert (s + [c])[..|s|] == s;
  }

  lemma CutSnoc(t: string, c: char, most: nat)
    ensures Cut(t + [c], most) == if |Cut(t, most)| >= most then Cut(t, most) else Cut(t, most) + [c]
  {
  }

  /** mmis_alias_clean, in place: the text up to its NUL becomes its cleaned form. */
  method Clean(s: array<char>, ghost len: nat) returns (w: nat)
    requires len < s.Length && s[len] == '\0' && forall i :: 0 <= i < len ==> s[i] != '\0'
    modifies s
    ensures w <= len && s[..w] == Cleaned(old(s[..len])) && s[w] == '\0'
    ensures forall i :: len < i < s.Length ==> s[i] == old(s[i])
  {
    hide Visible, SkipBlanks, Cut, IsControl;
    ghost var text := s[..len];
    NothingCleaned();
    w := 0;
    var r := 0;
    while s[r] != '\0'
      invariant w <= r <= len && (r < len ==> s[r] != '\0')
      invariant forall i :: r <= i < s.Length ==> s[i] == old(s[i])
      invariant s[..w] == Cut(SkipBlanks(Visible(text[..r])), NAME_MAX)
      decreases len - r
    {
      var c := s[r];
      assert text[..r] + [text[r]] == text[..r + 1];
      OneMoreChar(text[..r], c);
      if IsControl(c) || (w == 0 && c == ' ') {
      } else if w < NAME_MAX {
        ghost var kept := s[..w];
        s[w] := c;
        w := w + 1;
        assert s[..w] == kept + [c];
      }
      r := r + 1;
    }
    assert text[..r] == text;
    ghost var cut := s[..w];
    while w > 0 && s[w - 1] == ' '
      invariant 0 <= w <= |cut| && s[..w] == cut[..w] && TrimEnd(cut[..w]) == TrimEnd(cut)
    {
      assert cut[..w][..w - 1] == cut[..w - 1];
      w := w - 1;
    }
    assert TrimEnd(cut[..w]) == cut[..w];
    s[w] := '\0';
  }

  lemma NothingCleaned()
    ensures Cut(SkipBlanks(Visible("")), NAME_MAX) == ""
  {
  }

  // ---------- names that read the same ----------

  /** tolower in the C locale. */
  function Lower(c: char): char { if 'A' <= c <= 'Z' then c + 32 as char else c }

  function Folded(s: string): string { seq(|s|, i requires 0 <= i < |s| => Lower(s[i])) }

  /** strcasecmp says equal. */
  predicate SameName(a: string, b: string) { Folded(a) == Folded(b) }

  /** The name a print gets when none is typed. */
  function DefaultName(slot: nat): string { "Print " + Dec(slot) }

  lemma DefaultIsClean(slot: nat)
    requires slot < 0x1_0000
    ensures IsClean(DefaultName(slot)) && DefaultName(slot) != ""
  {
    DecIsShort(slot);
    var d := Dec(slot);
    assert forall i :: 0 <= i < |d| ==> IsDigit(d[i]);
    assert DefaultName(slot)[|DefaultName(slot)| - 1] == d[|d| - 1];
  }

  /** What a typed line proposes: it cleaned, or the default. */
  function Proposed(line: string, slot: nat): string {
    var name := Cleaned(UntilBreak(line));
    if name == "" then DefaultName(slot) else name
  }

  lemma ProposedIsClean(line: string, slot: nat)
    requires slot < 0x1_0000
    ensures IsClean(Proposed(line, slot)) && Proposed(line, slot) != ""
  {
    CleanedIsClean(UntilBreak(line));
    DefaultIsClean(slot);
  }
}
