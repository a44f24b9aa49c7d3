/**
 * Wildcard mapping keys. Both versions of the key mapper turn a mapping key such as
 * `item_*_valor` into the anchored regular expression `^item_([0-9]+)_valor$`
 * (`re.escape`, then every escaped star becomes a captured run of ASCII digits).
 * `Match` is that regular expression written by hand, with the same greedy backtracking
 * as Python's `re`, so the first capture is the one `match.group(1)` returns.
 */
module Wildcard {

  import opened Wrappers
  import opened Text

  /** Number of stars in a pattern, which is the number of capture groups. */
  function Stars(p: string): nat {
    if p == [] then 0 else (if p[0] == '*' then 1 else 0) + Stars(p[1..])
  }

  predicate IsPattern(p: string) {
    Stars(p) > 0
  }

  /** Length of the run of ASCII digits at the start of `s`. */
  function DigitRun(s: string): (n: nat)
    ensures n <= |s|
    ensures forall i :: 0 <= i < n ==> IsDigit(s[i])
    ensures n < |s| ==> !IsDigit(s[n])
  {
    if s != [] && IsDigit(s[0]) then 1 + DigitRun(s[1..]) else 0
  }

  /** What a star may stand for: a non-empty run of ASCII digits. */
  predicate IsDigits(c: string) {
    c != [] && forall i :: 0 <= i < |c| ==> IsDigit(c[i])
  }

  predicate AllDigits(caps: seq<string>) {
    forall i :: 0 <= i < |caps| ==> IsDigits(caps[i])
  }

  /** The key that pattern `p` stands for when its stars take the values `caps`, in order. */
  function Fill(p: string, caps: seq<string>): string
    requires |caps| == Stars(p)
  {
    if p == [] then ""
    else if p[0] == '*' then caps[0] + Fill(p[1..], caps[1..])
    else [p[0]] + Fill(p[1..], caps)
  }

  /** The anchored match of key `s` against pattern `p`; on success, the captured digit runs. */
  function Match(p: string, s: string): Option<seq<string>>
    decreases |p|, |s| + 1
  {
    if p == [] then (if s == [] then Some([]) else None)
    else if p[0] == '*' then TryRun(p, s, DigitRun(s))
    else if s != [] && s[0] == p[0] then Match(p[1..], s[1..])
    else None
  }

  /** The leading star of `p` tries the runs of length k, k-1, ..., 1 at the start of `s`, longest first. */
  function TryRun(p: string, s: string, k: nat): (r: Option<seq<string>>)
    requires p != [] && p[0] == '*' && k <= DigitRun(s)
    ensures r.Some? ==> r.value != []
    decreases |p|, k
  {
    if k == 0 then None
    else match Match(p[1..], s[k..])
      case Some(caps) => Some([s[..k]] + caps)
      case None => TryRun(p, s, k - 1)
  }

  /** `name.replace("*", digits)` */
  function ReplaceStar(name: string, digits: string): string {
    ReplaceAll(name, "*", digits)
  }

  lemma {:induction false} ReplaceAbsent(s: string, digits: string)
    requires '*' !in s
    ensures ReplaceStar(s, digits) == s
    decreases |s|
  {
    if s != [] {
      assert s[0] in s && s[..1] == [s[0]];
      assert forall c :: c in s[1..] ==> c in s;
      ReplaceAbsent(s[1..], digits);
      assert s == [s[0]] + s[1..];
    }
  }

  /** In a name with one star, `replace("*", digits)` puts the digits in its place. */
  lemma {:induction false} ReplaceOneStar(pre: string, suf: string, digits: string)
    requires '*' !in pre && '*' !in suf
    ensures ReplaceStar(pre + "*" + suf, digits) == pre + digits + suf
    decreases |pre|
  {
    var s := pre + "*" + suf;
    if pre == [] {
      assert s[..1] == "*" && s[1..] == suf;
      ReplaceAbsent(suf, digits);
    } else {
      assert pre[0] in pre && s[..1] == [pre[0]] && s[..1] != "*";
      assert forall c :: c in pre[1..] ==> c in pre;
      ReplaceOneStar(pre[1..], suf, digits);
      assert s[1..] == pre[1..] + "*" + suf;
      assert pre + digits + suf == [pre[0]] + (pre[1..] + digits + suf);
    }
  }

  lemma ReplaceExample()
    ensures ReplaceStar("ITEM_*_VALOR", "3") == "ITEM_3_VALOR"
  {
    ReplaceOneStar("ITEM_", "_VALOR", "3");
    assert "ITEM_" + "*" + "_VALOR" == "ITEM_*_VALOR";
    assert "ITEM_" + "3" + "_VALOR" == "ITEM_3_VALOR";
  }

  /** A successful match gives one digit run per star, and putting them back into the pattern rebuilds the key. */
  lemma {:induction false} MatchSound(p: string, s: string)
    requires Match(p, s).Some?
    ensures |Match(p, s).value| == Stars(p)
    ensures AllDigits(Match(p, s).value)
    ensures Fill(p, Match(p, s).value) == s
    decreases |p|, |s| + 1
  {
    if p == [] {
    } else if p[0] == '*' {
      TryRunSound(p, s, DigitRun(s));
    } else {
      MatchSound(p[1..], s[1..]);
    }
  }

  lemma {:induction false} TryRunSound(p: string, s: string, k: nat)
    requires p != [] && p[0] == '*' && k <= DigitRun(s)
    requires TryRun(p, s, k).Some?
    ensures |TryRun(p, s, k).value| == Stars(p)
    ensures AllDigits(TryRun(p, s, k).value)
    ensures Fill(p, TryRun(p, s, k).value) == s
    decreases |p|, k
  {
    if Match(p[1..], s[k..]).Some? {
      MatchSound(p[1..], s[k..]);
      var caps := Match(p[1..], s[k..]).value;
      assert TryRun(p, s, k).value == [s[..k]] + caps;
      assert ([s[..k]] + caps)[1..] == caps;
      assert s == s[..k] + s[k..];
    } else {
      TryRunSound(p, s, k - 1);
    }
  }

  /** Every way of reading the key as the pattern with digit runs for the stars is found: the match cannot miss. */
  lemma {:induction false} MatchComplete(p: string, s: string, caps: seq<string>)
    requires |caps| == Stars(p) && AllDigits(caps) && Fill(p, caps) == s
    ensures Match(p, s).Some?
    decreases |p|
  {
    if p == [] {
    } else if p[0] == '*' {
      var c := caps[0];
      var j := |c|;
      assert s == c + Fill(p[1..], caps[1..]);
      assert s[..j] == c && s[j..] == Fill(p[1..], caps[1..]);
      DigitRunCovers(s, j);
      MatchComplete(p[1..], s[j..], caps[1..]);
      TryRunFinds(p, s, DigitRun(s), j);
    } else {
      MatchComplete(p[1..], s[1..], caps);
    }
  }

  lemma {:induction false} DigitRunCovers(s: string, j: nat)
    requires j <= |s| && forall i :: 0 <= i < j ==> IsDigit(s[i])
    ensures j <= DigitRun(s)
    decreases j
  {
    if j > 0 {
      DigitRunCovers(s[1..], j - 1);
    }
  }

  lemma {:induction false} TryRunFinds(p: string, s: string, k: nat, j: nat)
    requires p != [] && p[0] == '*' && k <= DigitRun(s)
    requires 1 <= j <= k && Match(p[1..], s[j..]).Some?
    ensures TryRun(p, s, k).Some?
    decreases k
  {
    if Match(p[1..], s[k..]).None? {
      TryRunFinds(p, s, k - 1, j);
    }
  }

  /**
   * Greedy capture: the first capture (`match.group(1)`) is the longest digit run with which
   * the rest of the key still matches the rest of the pattern, whatever literal text precedes
   * the first star.
   */
  lemma {:induction false} FirstCaptureLongest(p: string, s: string, caps: seq<string>)
    requires IsPattern(p)
    requires Match(p, s).Some?
    requires |caps| == Stars(p) && AllDigits(caps) && Fill(p, caps) == s
    ensures |Match(p, s).value| == Stars(p) && |caps[0]| <= |Match(p, s).value[0]|
    decreases |p|
  {
    MatchSound(p, s);
    if p[0] == '*' {
      var c := caps[0];
      assert s == c + Fill(p[1..], caps[1..]);
      assert s[..|c|] == c && s[|c|..] == Fill(p[1..], caps[1..]);
      DigitRunCovers(s, |c|);
      MatchComplete(p[1..], s[|c|..], caps[1..]);
      TryRunLongest(p, s, DigitRun(s), |c|);
    } else {
      assert s == [p[0]] + Fill(p[1..], caps);
      assert s[1..] == Fill(p[1..], caps);
      FirstCaptureLongest(p[1..], s[1..], caps);
    }
  }

  lemma {:induction false} TryRunLongest(p: string, s: string, k: nat, j: nat)
    requires p != [] && p[0] == '*' && k <= DigitRun(s)
    requires 1 <= j <= k && Match(p[1..], s[j..]).Some?
    ensures TryRun(p, s, k).Some? && j <= |TryRun(p, s, k).value[0]|
    decreases k
  {
    if Match(p[1..], s[k..]).None? {
      TryRunLongest(p, s, k - 1, j);
    }
  }

  /** The pattern `item_*_valor` captures the item number of `item_3_valor`. */
  lemma MatchExample()
    ensures Match("item_*_valor", "item_3_valor") == Some(["3"])
  {
    var rest := "_valor";
    MatchSamePrefix(rest, [], []);
    assert rest + [] == rest;
    var s := "3_valor";
    assert s[1..] == rest && s[..1] == "3";
    assert DigitRun(rest) == 0;
    assert DigitRun(s) == 1;
    var p := "*_valor";
    assert p[0] == '*' && p[1..] == rest && s[1..] == rest;
    assert Match(p[1..], s[1..]) == Some([]);
    assert TryRun(p, s, 1) == Some([s[..1]] + []);
    assert [s[..1]] + [] == ["3"];
    MatchSamePrefix("item_", "*_valor", s);
    PatternSplits();
    KeySplits();
  }

  lemma PatternSplits()
    ensures "item_" + "*_valor" == "item_*_valor"
  {
  }

  lemma KeySplits()
    ensures "item_" + "3_valor" == "item_3_valor"
  {
  }

  /** Literal characters on both sides are matched one by one. */
  lemma {:induction false} MatchSamePrefix(pre: string, p: string, s: string)
    requires '*' !in pre
    ensures Match(pre + p, pre + s) == Match(p, s)
  {
    if pre != [] {
      assert pre[0] in pre && (pre + p)[0] == pre[0] && (pre + s)[0] == pre[0];
      assert forall c :: c in pre[1..] ==> c in pre;
      MatchSamePrefix(pre[1..], p, s);
      assert (pre + p)[1..] == pre[1..] + p;
      assert (pre + s)[1..] == pre[1..] + s;
    } else {
      assert pre + p == p && pre + s == s;
    }
  }
}
