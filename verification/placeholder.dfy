/**
 * The placeholder encoder of processar.py's `normalizar_chaves_json`: a display name becomes
 * a template token over `A-Z`, `0-9` and `_`. The name is stripped and upper-cased, every run
 * of other characters becomes one `_` (`re.sub(r'[^A-Z0-9_]+', '_', ...)`), `__` is replaced
 * by `_` until none is left, and outer `_` are stripped.
 */
module Placeholder {

  import opened Json
  import opened Text
  import opened Collision

  predicate IsTokenChar(c: char) {
    IsUpper(c) || IsDigit(c) || c == '_'
  }

  predicate AllTokenChars(s: string) {
    forall i :: 0 <= i < |s| ==> IsTokenChar(s[i])
  }

  /** No two adjacent underscores. */
  predicate NoDouble(s: string) {
    forall i :: 0 <= i < |s| - 1 ==> !(s[i] == '_' && s[i + 1] == '_')
  }

  /** What the encoder can produce: token characters, no `__`, and no `_` at either end. */
  predicate Canonical(t: string) {
    AllTokenChars(t) && NoDouble(t) && (t != [] ==> t[0] != '_' && t[|t| - 1] != '_')
  }

  /** `re.sub(r'[^A-Z0-9_]+', '_', s)`: each maximal run of other characters becomes one `_`. */
  function SubRuns(s: string): (r: string)
    ensures AllTokenChars(r)
    decreases |s|
  {
    if s == [] then []
    else if IsTokenChar(s[0]) then [s[0]] + SubRuns(s[1..])
    else "_" + SubRuns(TrimLeft(s, c => !IsTokenChar(c)))
  }

  /** Every run of underscores shrunk to one. */
  function Collapse(s: string): string
    decreases |s|
  {
    if |s| < 2 then s
    else if s[0] == '_' && s[1] == '_' then Collapse(s[1..])
    else [s[0]] + Collapse(s[1..])
  }

  /** The token for a display name (empty when nothing usable is left). */
  function Encode(name: string): string {
    StripChar(Collapse(SubRuns(Upper(Strip(name)))), '_')
  }

  /**
   * The encoding steps as the source runs them, with the `while "__" in s` loop that
   * replaces `__` by `_` until none is left.
   */
  method EncodeName(name: string) returns (token: string)
    ensures token == Encode(name)
  {
    var s := SubRuns(Upper(Strip(name)));
    ghost var target := Collapse(s);
    while Contains(s, "__")
      invariant Collapse(s) == target
      decreases |s|
    {
      ReplaceKeepsCollapse(s);
      ReplaceShrinks(s);
      s := ReplaceAll(s, "__", "_");
    }
    ContainsDouble(s);
    CollapseNoDoubleId(s);
    token := StripChar(s, '_');
  }

  lemma {:induction false} CollapseFirst(t: string)
    requires t != []
    ensures Collapse(t) != [] && Collapse(t)[0] == t[0]
    decreases |t|
  {
    if |t| >= 2 && t[0] == '_' && t[1] == '_' {
      CollapseFirst(t[1..]);
    }
  }

  /** Collapsing `c + t` only depends on `c` and the collapsed `t`. */
  lemma CollapseCons(c: char, t: string)
    ensures Collapse([c] + t) == if c == '_' && t != [] && t[0] == '_' then Collapse(t) else [c] + Collapse(t)
  {
    var s := [c] + t;
    assert s[1..] == t;
    if t != [] {
      assert s[1] == t[0];
    }
  }

  /** One `replace("__", "_")` pass does not change what collapsing gives. */
  lemma {:induction false} ReplaceKeepsCollapse(s: string)
    ensures Collapse(ReplaceAll(s, "__", "_")) == Collapse(s)
    decreases |s|
  {
    if |s| >= 2 {
      if s[..2] == "__" {
        var rest := ReplaceAll(s[2..], "__", "_");
        ReplaceKeepsCollapse(s[2..]);
        CollapseCons('_', rest);
        CollapseCons('_', s[2..]);
        assert s[1..] == "_" + s[2..];
        if rest != [] {
          CollapseFirst(rest);
        }
        if s[2..] != [] {
          CollapseFirst(s[2..]);
        }
      } else {
        var rest := ReplaceAll(s[1..], "__", "_");
        ReplaceKeepsCollapse(s[1..]);
        CollapseCons(s[0], rest);
        CollapseCons(s[0], s[1..]);
        assert s == [s[0]] + s[1..];
        if rest != [] {
          CollapseFirst(rest);
        }
        if s[1..] != [] {
          CollapseFirst(s[1..]);
        }
      }
    }
  }

  /** `"__" in s` exactly when two underscores are adjacent somewhere. */
  lemma {:induction false} ContainsDouble(s: string)
    ensures Contains(s, "__") <==> !NoDouble(s)
    decreases |s|
  {
    if s != [] {
      ContainsDouble(s[1..]);
      if |s| >= 2 {
        assert s[..2] == "__" <==> s[0] == '_' && s[1] == '_';
      }
      assert NoDouble(s) <==> NoDouble(s[1..]) && !(|s| >= 2 && s[0] == '_' && s[1] == '_');
    }
  }

  /** A pass shrinks the text by one character per `__` it rewrites. */
  lemma {:induction false} ReplaceShrinks(s: string)
    ensures |ReplaceAll(s, "__", "_")| <= |s|
    ensures Contains(s, "__") ==> |ReplaceAll(s, "__", "_")| < |s|
    decreases |s|
  {
    if |s| >= 2 {
      if s[..2] == "__" {
        ReplaceShrinks(s[2..]);
      } else {
        ReplaceShrinks(s[1..]);
      }
    } else if s != [] {
      assert !Contains(s[1..], "__");
    }
  }

  lemma {:induction false} CollapseNoDoubleId(s: string)
    requires NoDouble(s)
    ensures Collapse(s) == s
    decreases |s|
  {
    if |s| >= 2 {
      assert !(s[0] == '_' && s[1] == '_');
      CollapseNoDoubleId(s[1..]);
      assert s == [s[0]] + s[1..];
    }
  }

  lemma {:induction false} CollapseShape(s: string)
    requires AllTokenChars(s)
    ensures AllTokenChars(Collapse(s)) && NoDouble(Collapse(s))
    decreases |s|
  {
    if |s| >= 2 {
      CollapseShape(s[1..]);
      var r := Collapse(s[1..]);
      CollapseFirst(s[1..]);
      if !(s[0] == '_' && s[1] == '_') {
        assert Collapse(s) == [s[0]] + r;
      }
    }
  }

  /** A slice of a text over token characters with no `__` keeps both properties. */
  lemma SliceShape(c: string, lo: nat, hi: nat)
    requires lo <= hi <= |c| && AllTokenChars(c) && NoDouble(c)
    ensures AllTokenChars(c[lo..hi]) && NoDouble(c[lo..hi])
  {
    assert forall i :: 0 <= i < hi - lo ==> c[lo..hi][i] == c[lo + i];
  }

  lemma StripUnderscoreShape(c: string)
    requires AllTokenChars(c) && NoDouble(c)
    ensures Canonical(StripChar(c, '_'))
  {
    var l := TrimLeft(c, x => x == '_');
    var r := TrimRight(l, x => x == '_');
    SliceShape(c, |c| - |l|, |c|);
    SliceShape(l, 0, |r|);
  }

  /** Every token the encoder produces is canonical. */
  lemma EncodeCanonical(name: string)
    ensures Canonical(Encode(name))
  {
    var s := SubRuns(Upper(Strip(name)));
    CollapseShape(s);
    StripUnderscoreShape(Collapse(s));
  }

  lemma {:induction false} SubRunsTokenId(s: string)
    requires AllTokenChars(s)
    ensures SubRuns(s) == s
    decreases |s|
  {
    if s != [] {
      SubRunsTokenId(s[1..]);
      assert s == [s[0]] + s[1..];
    }
  }

  lemma StripTokenId(t: string)
    requires AllTokenChars(t)
    ensures Strip(t) == t && Upper(t) == t
  {
    if t != [] {
      assert !IsSpace(t[0]) && !IsSpace(t[|t| - 1]);
    }
    assert TrimLeft(t, IsSpace) == t;
  }

  lemma StripUnderscoreId(t: string)
    requires Canonical(t)
    ensures StripChar(t, '_') == t
  {
    assert TrimLeft(t, x => x == '_') == t;
  }

  /** A canonical token encodes to itself, so encoding twice is encoding once. */
  lemma EncodeFixes(t: string)
    requires Canonical(t)
    ensures Encode(t) == t
  {
    StripTokenId(t);
    SubRunsTokenId(t);
    CollapseNoDoubleId(t);
    StripUnderscoreId(t);
  }

  lemma EncodeIdempotent(name: string)
    ensures Encode(Encode(name)) == Encode(name)
  {
    EncodeCanonical(name);
    EncodeFixes(Encode(name));
  }

  lemma CanonicalExample()
    ensures Canonical("ITEM_3_VALOR")
  {
  }

  const InvalidPrefix := "CHAVE_INVALIDA_GERADA_"

  /** `f"CHAVE_INVALIDA_GERADA_{n}"`, used when the encoding leaves nothing. */
  function InvalidKey(n: nat): (k: string)
    ensures k != [] && Canonical(k)
  {
    var d := NatToString(n);
    var k := InvalidPrefix + d;
    assert forall i :: 0 <= i < |d| ==> k[|InvalidPrefix| + i] == d[i];
    k
  }

  /** A collision key built on a non-empty canonical token is canonical too. */
  lemma DupCanonical(token: string, n: nat)
    requires token != [] && Canonical(token)
    ensures Canonical(Dup(token, n))
  {
    var d := NatToString(n);
    var k := Dup(token, n);
    assert k == token + Marker + d;
    assert forall i :: 0 <= i < |token| ==> k[i] == token[i];
    assert forall i :: 0 <= i < |Marker| ==> k[|token| + i] == Marker[i];
    assert forall i :: 0 <= i < |d| ==> k[|token| + |Marker| + i] == d[i];
  }
}
