/** Derivation of the attribute name under which each operational-point
    feature is exposed: the point name is split on `'-'`, the first word is
    kept as is and every later word is capitalised, so `"left-wrist"`
    becomes `"leftWrist"`.

    Letter case follows Python 2's `str.capitalize` on ASCII text: only
    `'a'..'z'` and `'A'..'Z'` change case, every other character is kept. */
module Naming {

  const Hyphen: char := '-'

  /** `s.split(sep)`: the maximal `sep`-free pieces of `s`, in order,
      including empty pieces around adjacent or trailing separators. There is
      always at least one piece. */
  function Split(s: string, sep: char): (ws: seq<string>)
    ensures |ws| >= 1
    decreases |s|
  {
    if |s| == 0 then [""]
    else
      var rest := Split(s[1..], sep);
      if s[0] == sep then [""] + rest
      else [[s[0]] + rest[0]] + rest[1..]
  }

  /** `sep.join(ws)`, the inverse of `Split`. */
  function Join(ws: seq<string>, sep: char): string
    requires |ws| >= 1
    decreases |ws|
  {
    if |ws| == 1 then ws[0] else ws[0] + [sep] + Join(ws[1..], sep)
  }

  /** No piece of a split contains the separator. */
  lemma {:induction false} SplitPiecesFree(s: string, sep: char)
    ensures forall k :: 0 <= k < |Split(s, sep)| ==> sep !in Split(s, sep)[k]
    decreases |s|
  {
    if |s| > 0 {
      SplitPiecesFree(s[1..], sep);
    }
  }

  lemma {:induction false} JoinExtendFirst(a: string, ws: seq<string>, sep: char)
    requires |ws| >= 1
    ensures Join([a + ws[0]] + ws[1..], sep) == a + Join(ws, sep)
  {
    var ws' := [a + ws[0]] + ws[1..];
    if |ws| > 1 {
      assert ws'[1..] == ws[1..];
    }
  }

  /** Joining the pieces of a split gives back the original string. */
  lemma {:induction false} JoinSplit(s: string, sep: char)
    ensures Join(Split(s, sep), sep) == s
    decreases |s|
  {
    if |s| > 0 {
      var rest := Split(s[1..], sep);
      JoinSplit(s[1..], sep);
      if s[0] == sep {
        assert ([""] + rest)[1..] == rest;
      } else {
        JoinExtendFirst([s[0]], rest, sep);
      }
      assert s == [s[0]] + s[1..];
    }
  }

  lemma {:induction false} SplitPrefix(w: string, t: string, sep: char)
    requires sep !in w
    ensures Split(w + t, sep) == [w + Split(t, sep)[0]] + Split(t, sep)[1..]
    decreases |w|
  {
    var ws := Split(t, sep);
    if |w| == 0 {
      assert w + t == t;
      assert ws == [ws[0]] + ws[1..];
      assert w + ws[0] == ws[0];
    } else {
      assert (w + t)[1..] == w[1..] + t;
      SplitPrefix(w[1..], t, sep);
      assert [w[0]] + (w[1..] + Split(t, sep)[0]) == w + Split(t, sep)[0];
    }
  }

  /** Splitting a join of separator-free pieces gives back the pieces. */
  lemma {:induction false} SplitJoin(ws: seq<string>, sep: char)
    requires |ws| >= 1
    requires forall k :: 0 <= k < |ws| ==> sep !in ws[k]
    ensures Split(Join(ws, sep), sep) == ws
    decreases |ws|
  {
    if |ws| == 1 {
      SplitPrefix(ws[0], "", sep);
      assert ws[0] + "" == ws[0];
    } else {
      var t := Join(ws[1..], sep);
      SplitJoin(ws[1..], sep);
      assert ([sep] + t)[1..] == t;
      assert Split([sep] + t, sep) == [""] + ws[1..];
      assert ws[0] + [sep] + t == ws[0] + ([sep] + t);
      SplitPrefix(ws[0], [sep] + t, sep);
      assert ws[0] + "" == ws[0];
    }
  }

  /** A string without the separator splits into itself alone. */
  lemma SplitWithoutSeparator(s: string, sep: char)
    requires sep !in s
    ensures Split(s, sep) == [s]
  {
    SplitJoin([s], sep);
  }

  function Upper(c: char): char
  {
    if 'a' <= c <= 'z' then (c as int - 32) as char else c
  }

  function Lower(c: char): char
  {
    if 'A' <= c <= 'Z' then (c as int + 32) as char else c
  }

  /** Every character lowered, position by position. */
  function LowerAll(s: string): (r: string)
    ensures |r| == |s|
    ensures forall j :: 0 <= j < |s| ==> r[j] == Lower(s[j])
  {
    seq(|s|, j requires 0 <= j < |s| => Lower(s[j]))
  }

  /** Python's `str.capitalize`: first character upper case, the rest
      lower case. */
  function Capitalize(w: string): (r: string)
    ensures |r| == |w|
  {
    if |w| == 0 then [] else [Upper(w[0])] + LowerAll(w[1..])
  }

  /** The loop `for i in w[1:]: memberName += i.capitalize()`, as a left
      fold over the remaining words. */
  function AppendCapitalized(acc: string, ws: seq<string>): string
    decreases |ws|
  {
    if |ws| == 0 then acc else AppendCapitalized(acc + Capitalize(ws[0]), ws[1..])
  }

  /** The attribute name for operational point `op`. */
  function MemberName(op: string): string
  {
    var w := Split(op, Hyphen);
    AppendCapitalized(w[0], w[1..])
  }

  /** The words of `ws` concatenated with nothing in between. */
  function Concat(ws: seq<string>): string
    decreases |ws|
  {
    if |ws| == 0 then [] else ws[0] + Concat(ws[1..])
  }

  /** `s` with every occurrence of `c` deleted. */
  function Remove(s: string, c: char): (r: string)
    ensures c !in r
    decreases |s|
  {
    if |s| == 0 then [] else (if s[0] == c then [] else [s[0]]) + Remove(s[1..], c)
  }

  lemma LowerAllAppend(a: string, b: string)
    ensures LowerAll(a + b) == LowerAll(a) + LowerAll(b)
  {
  }

  lemma LowerUpper(c: char)
    ensures Lower(Upper(c)) == Lower(c)
  {
  }

  /** Capitalising a word changes only letter case. */
  lemma CapitalizeCaseless(w: string)
    ensures LowerAll(Capitalize(w)) == LowerAll(w)
  {
    var c := Capitalize(w);
    forall j | 0 <= j < |w|
      ensures Lower(c[j]) == Lower(w[j])
    {
      if j == 0 {
        LowerUpper(w[0]);
      } else {
        assert c[j] == Lower(w[j]);
      }
    }
  }

  /** Deleting the separator from a string concatenates its split pieces. */
  lemma {:induction false} RemoveIsConcatOfSplit(s: string, sep: char)
    ensures Remove(s, sep) == Concat(Split(s, sep))
    decreases |s|
  {
    if |s| > 0 {
      RemoveIsConcatOfSplit(s[1..], sep);
      var rest := Split(s[1..], sep);
      if s[0] == sep {
        assert ([""] + rest)[1..] == rest;
      } else {
        var ws := [[s[0]] + rest[0]] + rest[1..];
        assert ws[1..] == rest[1..];
        assert Concat(rest) == rest[0] + Concat(rest[1..]);
      }
    }
  }

  lemma {:induction false} AppendCapitalizedPrefix(acc: string, ws: seq<string>)
    ensures |acc| <= |AppendCapitalized(acc, ws)|
    ensures AppendCapitalized(acc, ws)[..|acc|] == acc
    decreases |ws|
  {
    if |ws| > 0 {
      var acc' := acc + Capitalize(ws[0]);
      AppendCapitalizedPrefix(acc', ws[1..]);
      assert acc'[..|acc|] == acc;
    }
  }

  lemma {:induction false} AppendCapitalizedFree(acc: string, ws: seq<string>)
    requires Hyphen !in acc
    requires forall k :: 0 <= k < |ws| ==> Hyphen !in ws[k]
    ensures Hyphen !in AppendCapitalized(acc, ws)
    decreases |ws|
  {
    if |ws| > 0 {
      var c := Capitalize(ws[0]);
      assert forall j :: 0 <= j < |c| ==> c[j] != Hyphen by {
        forall j | 0 <= j < |c|
          ensures c[j] != Hyphen
        {
          assert ws[0][j] != Hyphen;
          if j > 0 {
            assert c[j] == Lower(ws[0][j]);
          }
        }
      }
      AppendCapitalizedFree(acc + c, ws[1..]);
    }
  }

  /** Every word capitalised, position by position. */
  function CapitalizeAll(ws: seq<string>): (r: seq<string>)
    ensures |r| == |ws|
    ensures forall k :: 0 <= k < |ws| ==> r[k] == Capitalize(ws[k])
  {
    seq(|ws|, k requires 0 <= k < |ws| => Capitalize(ws[k]))
  }

  /** `Concat` of a sequence that starts with `w`. */
  lemma ConcatCons(w: string, ws: seq<string>)
    ensures Concat([w] + ws) == w + Concat(ws)
  {
    assert ([w] + ws)[1..] == ws;
  }

  /** `CapitalizeAll` of a non-empty sequence, split after its first word. */
  lemma CapitalizeAllCons(ws: seq<string>)
    requires |ws| > 0
    ensures CapitalizeAll(ws) == [Capitalize(ws[0])] + CapitalizeAll(ws[1..])
  {
  }

  lemma StringAssoc(a: string, b: string, c: string)
    ensures a + b + c == a + (b + c)
  {
  }

  /** The loop with an accumulator appends the capitalised words, in
      order, to the accumulator. */
  lemma {:induction false} AppendCapitalizedIsConcat(acc: string, ws: seq<string>)
    ensures AppendCapitalized(acc, ws) == acc + Concat(CapitalizeAll(ws))
    decreases |ws|
  {
    if |ws| == 0 {
      assert CapitalizeAll(ws) == [];
      assert acc + [] == acc;
    } else {
      var c, cs := Capitalize(ws[0]), CapitalizeAll(ws[1..]);
      AppendCapitalizedIsConcat(acc + c, ws[1..]);
      CapitalizeAllCons(ws);
      ConcatCons(c, cs);
      StringAssoc(acc, c, Concat(cs));
    }
  }

  /** Capitalising every word before concatenating changes only letter
      case. */
  lemma {:induction false} ConcatCapitalizedCaseless(ws: seq<string>)
    ensures LowerAll(Concat(CapitalizeAll(ws))) == LowerAll(Concat(ws))
    decreases |ws|
  {
    if |ws| == 0 {
      assert CapitalizeAll(ws) == [];
    } else {
      var c, cs := Capitalize(ws[0]), CapitalizeAll(ws[1..]);
      ConcatCapitalizedCaseless(ws[1..]);
      CapitalizeAllCons(ws);
      ConcatCons(c, cs);
      CapitalizeCaseless(ws[0]);
      LowerAllAppend(c, Concat(cs));
      LowerAllAppend(ws[0], Concat(ws[1..]));
    }
  }

  /** Ignoring letter case, the loop appends the later words unchanged. */
  lemma AppendCapitalizedCaseless(acc: string, ws: seq<string>)
    ensures LowerAll(AppendCapitalized(acc, ws)) == LowerAll(acc + Concat(ws))
  {
    AppendCapitalizedIsConcat(acc, ws);
    ConcatCapitalizedCaseless(ws);
    LowerAllAppend(acc, Concat(CapitalizeAll(ws)));
    LowerAllAppend(acc, Concat(ws));
  }

  /** For every point name: the member name is the first hyphen-separated
      word unchanged, followed by every later word capitalised, in order. */
  lemma MemberNameIsCapitalizedWords(op: string)
    ensures var w := Split(op, Hyphen);
      MemberName(op) == w[0] + Concat(CapitalizeAll(w[1..]))
  {
    var w := Split(op, Hyphen);
    AppendCapitalizedIsConcat(w[0], w[1..]);
  }

  /** The member name of hyphen-free words joined by hyphens is the first
      word followed by the capitalised later words. */
  lemma MemberNameOfJoin(ws: seq<string>)
    requires |ws| >= 1
    requires forall k :: 0 <= k < |ws| ==> Hyphen !in ws[k]
    ensures MemberName(Join(ws, Hyphen)) == ws[0] + Concat(CapitalizeAll(ws[1..]))
  {
    SplitJoin(ws, Hyphen);
    MemberNameIsCapitalizedWords(Join(ws, Hyphen));
  }

  /** The member name begins with the first word of `op`, unchanged. */
  lemma MemberNameKeepsFirstWord(op: string)
    ensures Split(op, Hyphen)[0] <= MemberName(op)
  {
    var w := Split(op, Hyphen);
    AppendCapitalizedPrefix(w[0], w[1..]);
  }

  /** The member name contains no hyphen. */
  lemma MemberNameHasNoHyphen(op: string)
    ensures Hyphen !in MemberName(op)
  {
    var w := Split(op, Hyphen);
    SplitPiecesFree(op, Hyphen);
    AppendCapitalizedFree(w[0], w[1..]);
  }

  /** Ignoring letter case, the member name is `op` with its hyphens
      deleted; in particular it has the length of `op` with its hyphens
      deleted. */
  lemma MemberNameCaseless(op: string)
    ensures LowerAll(MemberName(op)) == LowerAll(Remove(op, Hyphen))
    ensures |MemberName(op)| == |Remove(op, Hyphen)|
  {
    var w := Split(op, Hyphen);
    AppendCapitalizedCaseless(w[0], w[1..]);
    RemoveIsConcatOfSplit(op, Hyphen);
    assert Concat(w) == w[0] + Concat(w[1..]);
  }

  /** A name without a hyphen is its own member name. */
  lemma MemberNameWithoutHyphen(op: string)
    requires Hyphen !in op
    ensures MemberName(op) == op
  {
    SplitWithoutSeparator(op, Hyphen);
    assert Split(op, Hyphen)[1..] == [];
  }

  /** The member names of the four default operational points. */
  lemma DefaultMemberNames()
    ensures MemberName("left-wrist") == "leftWrist"
    ensures MemberName("right-wrist") == "rightWrist"
    ensures MemberName("left-ankle") == "leftAnkle"
    ensures MemberName("right-ankle") == "rightAnkle"
  {
    LeftWrist();
    RightWrist();
    LeftAnkle();
    RightAnkle();
  }

  lemma LeftWrist()
    ensures MemberName("left-wrist") == "leftWrist"
  {
    CapitalizeWords();
    TwoWordsLiteral("left", "wrist", "Wrist", "left-wrist", "leftWrist");
  }

  lemma RightWrist()
    ensures MemberName("right-wrist") == "rightWrist"
  {
    CapitalizeWords();
    TwoWordsLiteral("right", "wrist", "Wrist", "right-wrist", "rightWrist");
  }

  lemma LeftAnkle()
    ensures MemberName("left-ankle") == "leftAnkle"
  {
    CapitalizeWords();
    TwoWordsLiteral("left", "ankle", "Ankle", "left-ankle", "leftAnkle");
  }

  lemma RightAnkle()
    ensures MemberName("right-ankle") == "rightAnkle"
  {
    CapitalizeWords();
    TwoWordsLiteral("right", "ankle", "Ankle", "right-ankle", "rightAnkle");
  }

  lemma CapitalizeWords()
    ensures Capitalize("wrist") == "Wrist"
    ensures Capitalize("ankle") == "Ankle"
  {
    assert LowerAll("rist") == "rist";
    assert LowerAll("nkle") == "nkle";
  }

  lemma TwoWordsLiteral(a: string, b: string, c: string, op: string, m: string)
    requires Hyphen !in a && Hyphen !in b
    requires Capitalize(b) == c
    requires op == a + "-" + b && m == a + c
    ensures MemberName(op) == m
  {
    TwoWords(a, b);
  }

  /** Two hyphen-free words joined by one hyphen. */
  lemma TwoWords(a: string, b: string)
    requires Hyphen !in a && Hyphen !in b
    ensures MemberName(a + [Hyphen] + b) == a + Capitalize(b)
  {
    SplitJoin([a, b], Hyphen);
    assert Join([a, b], Hyphen) == a + [Hyphen] + b;
    var w := Split(a + [Hyphen] + b, Hyphen);
    assert w == [a, b];
    assert w[1..] == [b];
    assert [b][1..] == [];
    assert AppendCapitalized(a, [b]) == AppendCapitalized(a + Capitalize(b), []);
  }
}
