/** The helpers of the CAN message generator `auto_generate_can_msg.py`,
    which it also copies into every codec it emits: enum label sanitising,
    unique enum member names, and Motorola bit positions. */
module CanSignals {
  import opened PyText
  import HexText

  // ---------------------------------------------------------------------
  // sanitize_enum_member
  // ---------------------------------------------------------------------

  /** `re.sub(r"[^0-9A-Za-z]+", "_", s)`: every maximal run of other
      characters becomes one "_". */
  function ReplaceRuns(s: string): string
    decreases |s|
  {
    if |s| == 0 then ""
    else if IsAsciiAlnum(s[0]) then [s[0]] + ReplaceRuns(s[1..])
    else "_" + ReplaceRuns(SkipRun(s[1..]))
  }

  /** The input after the rest of a run of characters outside [0-9A-Za-z]. */
  function SkipRun(s: string): (t: string)
    ensures |t| <= |s|
    ensures |t| > 0 ==> IsAsciiAlnum(t[0])
  {
    if |s| > 0 && !IsAsciiAlnum(s[0]) then SkipRun(s[1..]) else s
  }

  /** `re.sub(r"_+", "_", s)`. */
  function CollapseUnderscores(s: string): string
    decreases |s|
  {
    if |s| == 0 then ""
    else if s[0] != '_' then [s[0]] + CollapseUnderscores(s[1..])
    else "_" + CollapseUnderscores(SkipUnderscores(s[1..]))
  }

  function SkipUnderscores(s: string): (t: string)
    ensures |t| <= |s|
    ensures |s| > 0 && s[0] != '_' ==> t == s
  {
    if |s| > 0 && s[0] == '_' then SkipUnderscores(s[1..]) else s
  }

  /** The entries of Python's `keyword.kwlist` that are all lower case; the
      other three (`False`, `None`, `True`) never equal a lowered string. */
  const Keywords: set<string> :=
    {"and", "as", "assert", "async", "await", "break", "class", "continue", "def", "del",
     "elif", "else", "except", "finally", "for", "from", "global", "if", "import", "in",
     "is", "lambda", "nonlocal", "not", "or", "pass", "raise", "return", "try", "while",
     "with", "yield"}

  /** `sanitize_enum_member`: strip, replace runs of other characters with
      "_", collapse "_" runs, upper-case; "VALUE" for an empty result; a
      "_" prefix before a leading digit or a keyword. */
  function SanitizeEnumMember(name: string): string
  {
    Guarded(Upper(CollapseUnderscores(ReplaceRuns(Strip(name)))))
  }

  /** The last two steps: the "VALUE" default and the "_" prefix. */
  function Guarded(s: string): (r: string)
    ensures |r| > 0
  {
    var s := if |s| == 0 then "VALUE" else s;
    if IsDigit(s[0]) || Lower(s) in Keywords then "_" + s else s
  }

  /** Every character is one of [0-9A-Za-z_] and no two "_" are adjacent. */
  predicate Runs(r: string)
  {
    (forall i :: 0 <= i < |r| ==> IsAsciiAlnum(r[i]) || r[i] == '_')
    && NoDoubleUnderscore(r)
  }

  predicate NoDoubleUnderscore(r: string)
  {
    forall i :: 0 <= i < |r| - 1 ==> !(r[i] == '_' && r[i + 1] == '_')
  }

  /** The member names a sanitised label can be: [0-9A-Z_] only. */
  predicate MemberChars(r: string)
  {
    forall i :: 0 <= i < |r| ==> IsDigit(r[i]) || 'A' <= r[i] <= 'Z' || r[i] == '_'
  }

  lemma {:induction false} ReplaceRunsShape(s: string)
    ensures Runs(ReplaceRuns(s))
    ensures |s| > 0 && IsAsciiAlnum(s[0]) ==> |ReplaceRuns(s)| > 0 && ReplaceRuns(s)[0] == s[0]
    decreases |s|
  {
    if |s| > 0 {
      if IsAsciiAlnum(s[0]) {
        ReplaceRunsShape(s[1..]);
        var r := ReplaceRuns(s[1..]);
        assert ReplaceRuns(s) == [s[0]] + r;
      } else {
        var t := SkipRun(s[1..]);
        ReplaceRunsShape(t);
        var r := ReplaceRuns(t);
        assert ReplaceRuns(s) == "_" + r;
        assert |r| > 0 ==> r[0] != '_';
      }
    }
  }

  /** Collapsing changes nothing once no two "_" are adjacent: the second
      substitution of `sanitize_enum_member` is a no-op. */
  lemma {:induction false} CollapseNoOp(s: string)
    requires NoDoubleUnderscore(s)
    ensures CollapseUnderscores(s) == s
    decreases |s|
  {
    if |s| > 0 {
      assert NoDoubleUnderscore(s[1..]) by {
        forall i | 0 <= i < |s[1..]| - 1
          ensures !(s[1..][i] == '_' && s[1..][i + 1] == '_')
        {
          assert s[1..][i] == s[i + 1] && s[1..][i + 1] == s[i + 2];
        }
      }
      CollapseNoOp(s[1..]);
      if s[0] == '_' {
        assert |s| > 1 ==> s[1] != '_';
        assert SkipUnderscores(s[1..]) == s[1..];
      }
      assert s == [s[0]] + s[1..];
    }
  }

  /** Before the last two steps the label is a run of [0-9A-Z_] without
      "__". */
  lemma CoreShape(name: string)
    ensures var s := Upper(CollapseUnderscores(ReplaceRuns(Strip(name))));
      MemberChars(s) && NoDoubleUnderscore(s)
  {
    var replaced := ReplaceRuns(Strip(name));
    ReplaceRunsShape(Strip(name));
    CollapseNoOp(replaced);
    var u := Upper(replaced);
    forall i | 0 <= i < |u| - 1
      ensures !(u[i] == '_' && u[i + 1] == '_')
    {
      assert !(replaced[i] == '_' && replaced[i + 1] == '_');
    }
  }

  /** No keyword starts with "_". */
  lemma NotKeyword(s: string)
    requires |s| > 0 && s[0] == '_'
    ensures s !in Keywords
  {
  }

  lemma GuardedShape(s: string)
    requires MemberChars(s) && NoDoubleUnderscore(s)
    ensures var r := Guarded(s);
      MemberChars(r) && NoDoubleUnderscore(r) && !IsDigit(r[0]) && Lower(r) !in Keywords
  {
    var s' := if |s| == 0 then "VALUE" else s;
    assert MemberChars(s') && NoDoubleUnderscore(s');
    if IsDigit(s'[0]) || Lower(s') in Keywords {
      var r := "_" + s';
      assert Lower(r)[0] == '_';
      NotKeyword(Lower(r));
      assert s'[0] != '_' by {
        if s'[0] == '_' {
          assert Lower(s')[0] == '_';
          NotKeyword(Lower(s'));
        }
      }
      assert NoDoubleUnderscore(r) by {
        forall i | 0 <= i < |r| - 1
          ensures !(r[i] == '_' && r[i + 1] == '_')
        {
          assert r[i + 1] == s'[i];
          if i > 0 {
            assert r[i] == s'[i - 1];
          }
        }
      }
    }
  }

  /** What `sanitize_enum_member` promises: a non-empty name of [0-9A-Z_]
      with no "__", not starting with a digit, that is no keyword. */
  lemma SanitizedIsMemberName(name: string)
    ensures var r := SanitizeEnumMember(name);
      |r| > 0 && MemberChars(r) && NoDoubleUnderscore(r) && !IsDigit(r[0]) && Lower(r) !in Keywords
  {
    CoreShape(name);
    GuardedShape(Upper(CollapseUnderscores(ReplaceRuns(Strip(name)))));
  }

  /** A label with nothing left after stripping becomes "VALUE"; a keyword
      or a label starting with a digit gets the "_" prefix. */
  lemma GuardedCases(s: string)
    ensures |s| == 0 ==> Guarded(s) == "VALUE"
    ensures |s| > 0 && (IsDigit(s[0]) || Lower(s) in Keywords) ==> Guarded(s) == "_" + s
    ensures |s| > 0 && !IsDigit(s[0]) && Lower(s) !in Keywords ==> Guarded(s) == s
  {
    if |s| == 0 {
      assert Lower("VALUE") == "value";
    }
  }

  lemma SanitizeEmpty(name: string)
    requires |Strip(name)| == 0
    ensures SanitizeEnumMember(name) == "VALUE"
  {
    assert ReplaceRuns(Strip(name)) == "";
    GuardedCases("");
  }

  lemma SanitizeLeadingDigit(name: string)
    requires |Strip(name)| > 0 && IsDigit(Strip(name)[0])
    ensures var r := SanitizeEnumMember(name); |r| >= 2 && r[0] == '_' && r[1] == Strip(name)[0]
  {
    GuardedCoreDigit(Strip(name));
  }

  lemma GuardedCoreDigit(t: string)
    requires |t| > 0 && IsDigit(t[0])
    ensures var r := Guarded(Upper(CollapseUnderscores(ReplaceRuns(t)))); |r| >= 2 && r[0] == '_' && r[1] == t[0]
  {
    CoreHead(t);
    GuardedDigit(Upper(CollapseUnderscores(ReplaceRuns(t))));
  }

  /** A label that starts with a digit keeps it in front until the guard. */
  lemma CoreHead(t: string)
    requires |t| > 0 && IsDigit(t[0])
    ensures var u := Upper(CollapseUnderscores(ReplaceRuns(t))); |u| > 0 && u[0] == t[0]
  {
    var replaced := ReplaceRuns(t);
    assert replaced == [t[0]] + ReplaceRuns(t[1..]);
    var collapsed := CollapseUnderscores(replaced);
    assert collapsed == [t[0]] + CollapseUnderscores(replaced[1..]);
  }

  lemma GuardedDigit(s: string)
    requires |s| > 0 && IsDigit(s[0])
    ensures Guarded(s) == "_" + s
  {
  }

  // ---------------------------------------------------------------------
  // get_motorola_bit_positions
  // ---------------------------------------------------------------------

  /** The (byte, bit) pairs of a big-endian signal, most significant bit
      first: bit position start, start - 1, ..., start - length + 1, each
      split by floor division into byte p // 8 and bit p % 8. */
  function MotorolaPositions(startBit: int, length: nat): (ps: seq<(int, int)>)
    ensures |ps| == length
    ensures forall i :: 0 <= i < length ==> 8 * ps[i].0 + ps[i].1 == startBit - i && 0 <= ps[i].1 < 8
  {
    seq(length, i requires 0 <= i < length => ((startBit - i) / 8, (startBit - i) % 8))
  }

  /** The pair for a bit position is the only one: p // 8 and p % 8 are
      determined by p, so distinct positions give distinct pairs. */
  lemma PositionsDistinct(startBit: int, length: nat, i: nat, j: nat)
    requires i < j < length
    ensures MotorolaPositions(startBit, length)[i] != MotorolaPositions(startBit, length)[j]
  {
  }

  method GetMotorolaBitPositions(startBit: int, length: nat) returns (bits: seq<(int, int)>)
    ensures bits == MotorolaPositions(startBit, length)
  {
    bits := [];
    for i := 0 to length
      invariant bits == MotorolaPositions(startBit, i)
    {
      var bitPosition := startBit - i;
      var byteIndex := bitPosition / 8;
      var bitIndex := bitPosition % 8;
      bits := bits + [(byteIndex, bitIndex)];
    }
  }

  // ---------------------------------------------------------------------
  // unique_member_name
  // ---------------------------------------------------------------------

  /** `f"{base}_{k}"`. */
  function Suffixed(base: string, k: nat): string
  {
    base + "_" + HexText.Decimal(k)
  }

  /** One call of `unique_member_name` on the dictionary `used`: the name it
      returns and the dictionary after it. */
  function UniqueName(used: map<string, nat>, base: string): (r: (string, map<string, nat>))
    ensures base !in used ==> r.0 == base && r.1 == used[base := 0]
    ensures base in used ==> r.1 == used[base := used[base] + 1] && r.0 == Suffixed(base, used[base] + 1)
  {
    if base !in used then (base, used[base := 0])
    else (Suffixed(base, used[base] + 1), used[base := used[base] + 1])
  }

  /** The names a sequence of calls returns, and the dictionary after them. */
  function NamesFor(used: map<string, nat>, bases: seq<string>): (r: (seq<string>, map<string, nat>))
    ensures |r.0| == |bases|
    decreases |bases|
  {
    if |bases| == 0 then ([], used)
    else
      var p := NamesFor(used, bases[..|bases| - 1]);
      var q := UniqueName(p.1, bases[|bases| - 1]);
      (p.0 + [q.0], q.1)
  }

  function Repeat(base: string, n: nat): (bs: seq<string>)
    ensures |bs| == n && forall k :: 0 <= k < n ==> bs[k] == base
  {
    seq(n, _ => base)
  }

  /** The first request for a base returns it unchanged with a counter of
      0; the k-th repeated request returns base + "_" + k. */
  lemma {:induction false} RepeatedRequests(base: string, n: nat)
    requires n > 0
    ensures var r := NamesFor(map[], Repeat(base, n));
      r.1 == map[base := n - 1]
      && forall k :: 0 <= k < n ==> r.0[k] == if k == 0 then base else Suffixed(base, k)
  {
    if n > 1 {
      var bs := Repeat(base, n - 1);
      RepeatedRequests(base, n - 1);
      assert Repeat(base, n) == bs + [base];
      NamesForSnoc(map[], bs, base);
      var p := NamesFor(map[], bs);
      var q := UniqueName(p.1, base);
      assert p.1 == map[base := n - 2];
      assert q.0 == Suffixed(base, n - 1);
      assert q.1 == map[base := n - 1] by {
        assert map[base := n - 2][base := n - 1] == map[base := n - 1];
      }
      var r := NamesFor(map[], Repeat(base, n));
      assert r == (p.0 + [q.0], q.1);
      forall k | 0 <= k < n
        ensures r.0[k] == if k == 0 then base else Suffixed(base, k)
      {
        if k < n - 1 {
          assert r.0[k] == p.0[k];
        }
      }
    } else {
      assert Repeat(base, 1) == [] + [base];
      NamesForSnoc(map[], [], base);
    }
  }

  /** Suffixed names are not checked against other bases: the labels "A",
      "A", "A 1" sanitise to "A", "A", "A_1", whose member names are "A",
      "A_1", "A_1". */
  lemma DuplicateMemberNames()
    ensures NamesFor(map[], ["A", "A", "A_1"]).0 == ["A", "A_1", "A_1"]
  {
    NamesForSnoc(map[], [], "A");
    assert [] + ["A"] == ["A"];
    NamesForSnoc(map[], ["A"], "A");
    assert HexText.Decimal(1) == "1";
    assert Suffixed("A", 1) == "A_1";
    assert ["A"] + ["A"] == ["A", "A"];
    NamesForSnoc(map[], ["A", "A"], "A_1");
    assert ["A", "A"] + ["A_1"] == ["A", "A", "A_1"];
    assert "A_1" !in map["A" := 1];
  }

  lemma NamesForSnoc(used: map<string, nat>, bases: seq<string>, b: string)
    ensures var p := NamesFor(used, bases);
      NamesFor(used, bases + [b]) == (p.0 + [UniqueName(p.1, b).0], UniqueName(p.1, b).1)
  {
    assert (bases + [b])[..|bases|] == bases;
  }

  lemma {:induction false} NatDecimalLength(n: nat)
    ensures n >= 10 ==> |HexText.NatDecimal(n)| >= 2
  {
    if n >= 10 {
      assert HexText.NatDecimal(n) == HexText.NatDecimal(n / 10) + [HexText.DecimalChar(n % 10)];
    }
  }

  lemma {:induction false} NatDecimalInjective(a: nat, b: nat)
    requires HexText.NatDecimal(a) == HexText.NatDecimal(b)
    ensures a == b
    decreases a
  {
    NatDecimalLength(a);
    NatDecimalLength(b);
    var s := HexText.NatDecimal(a);
    if a >= 10 && b >= 10 {
      assert s[|s| - 1] == HexText.DecimalChar(a % 10) == HexText.DecimalChar(b % 10);
      assert s[..|s| - 1] == HexText.NatDecimal(a / 10) == HexText.NatDecimal(b / 10);
      NatDecimalInjective(a / 10, b / 10);
    }
  }

  lemma SuffixedInjective(base: string, j: nat, k: nat)
    requires Suffixed(base, j) == Suffixed(base, k)
    ensures j == k
  {
    var n := |base| + 1;
    assert Suffixed(base, j)[n..] == HexText.Decimal(j);
    assert Suffixed(base, k)[n..] == HexText.Decimal(k);
    NatDecimalInjective(j, k);
  }

  /** The `used` dictionary of one generated enum. */
  class MemberNames {
    var used: map<string, nat>

    constructor ()
      ensures used == map[]
    {
      used := map[];
    }

    /** `unique_member_name(base, used)` as written. */
    method UniqueMemberName(base: string) returns (name: string)
      modifies this
      ensures (name, used) == UniqueName(old(used), base)
    {
      if base !in used {
        used := used[base := 0];
        return base;
      }
      used := used[base := used[base] + 1];
      name := Suffixed(base, used[base]);
    }

    /** The evidently intended behaviour: a base seen for the first time is
        kept, otherwise the counter moves on past every suffixed name
        already taken, and the name handed out is recorded as taken too. */
    method FreshMemberName(base: string) returns (name: string)
      modifies this
      ensures name !in old(used) && name in used
      ensures old(used).Keys <= used.Keys
      ensures base !in old(used) ==> name == base && used == old(used)[base := 0]
    {
      if base !in used {
        used := used[base := 0];
        return base;
      }
      var k := used[base] + 1;
      ghost var tried: set<string> := {};
      while Suffixed(base, k) in used
        invariant used == old(used)
        invariant k >= 1
        invariant tried <= used.Keys
        invariant forall x :: x in tried ==> exists j :: 1 <= j < k && x == Suffixed(base, j)
        decreases |used.Keys - tried|
      {
        var c := Suffixed(base, k);
        if c in tried {
          var j :| 1 <= j < k && c == Suffixed(base, j);
          SuffixedInjective(base, j, k);
          assert false;
        }
        assert used.Keys - (tried + {c}) == (used.Keys - tried) - {c};
        tried := tried + {c};
        k := k + 1;
      }
      name := Suffixed(base, k);
      used := used[base := k][name := 0];
    }

    /** Names for a sequence of labels of one enum: all distinct. */
    method FreshMemberNames(bases: seq<string>) returns (names: seq<string>)
      modifies this
      ensures |names| == |bases|
      ensures forall i, j :: 0 <= i < j < |names| ==> names[i] != names[j]
    {
      names := [];
      for n := 0 to |bases|
        invariant |names| == n
        invariant forall i :: 0 <= i < n ==> names[i] in used
        invariant forall i, j :: 0 <= i < j < n ==> names[i] != names[j]
      {
        var name := FreshMemberName(bases[n]);
        names := names + [name];
      }
    }
  }
}
