/**
 * `formatAccessCode` of src/components/setup/ExamCard.tsx: a test access code
 * reduced to upper-case ASCII letters and digits, and for NAPLAN laid out in
 * groups of three, two and three separated by hyphens.
 */
module AccessCode {

  predicate IsAsciiAlnum(c: char) {
    'a' <= c <= 'z' || 'A' <= c <= 'Z' || '0' <= c <= '9'
  }

  /** A character the cleaned code may contain. */
  predicate IsCodeChar(c: char) {
    'A' <= c <= 'Z' || '0' <= c <= '9'
  }

  predicate IsCode(s: string) {
    forall i :: 0 <= i < |s| ==> IsCodeChar(s[i])
  }

  function ToUpper(c: char): char {
    if 'a' <= c <= 'z' then (c as int - 32) as char else c
  }

  /** `code.replace(/[^a-zA-Z0-9]/g, '').toUpperCase()`. */
  function Clean(code: string): (cleaned: string)
    ensures IsCode(cleaned)
    ensures |cleaned| <= |code|
  {
    if code == [] then []
    else (if IsAsciiAlnum(code[0]) then [ToUpper(code[0])] else []) + Clean(code[1..])
  }

  /** Cleaning works character by character: it distributes over concatenation. */
  lemma {:induction false} CleanAppend(a: string, b: string)
    ensures Clean(a + b) == Clean(a) + Clean(b)
  {
    if a != [] {
      assert (a + b)[0] == a[0];
      assert (a + b)[1..] == a[1..] + b;
      CleanAppend(a[1..], b);
    } else {
      assert a + b == b;
    }
  }

  /** One character: a letter is kept upper-cased, a digit is kept, anything else is dropped. */
  lemma CleanChar(c: char)
    ensures Clean([c]) == if 'a' <= c <= 'z' then [(c as int - 32) as char]
                          else if IsCodeChar(c) then [c]
                          else []
  {
    assert [c][1..] == [];
  }

  /** A string already made of code characters is left as it is. */
  lemma {:induction false} CleanKeepsCode(s: string)
    requires IsCode(s)
    ensures Clean(s) == s
  {
    if s != [] {
      CleanKeepsCode(s[1..]);
    }
  }

  /** `s.substring(start, end)` for `0 <= start <= end`: both ends clamped to the length. */
  function Substring(s: string, start: nat, end: nat): (r: string)
    requires start <= end
    ensures end <= |s| ==> r == s[start..end]
    ensures |r| <= end - start
    ensures r == [] <==> start == end || |s| <= start
  {
    var b := if end <= |s| then end else |s|;
    var a := if start <= b then start else b;
    s[a..b]
  }

  /** A substring whose end is past the string runs to its end. */
  lemma SubstringTail(s: string, start: nat, end: nat)
    requires start <= |s| <= end
    ensures Substring(s, start, end) == s[start..]
  {
  }

  /** `parts.filter(p => p).join('-')`. */
  function JoinNonEmpty(parts: seq<string>): (r: string)
    ensures r == [] <==> forall i :: 0 <= i < |parts| ==> parts[i] == []
  {
    if parts == [] then []
    else if parts[0] == [] then JoinNonEmpty(parts[1..])
    else
      var rest := JoinNonEmpty(parts[1..]);
      if rest == [] then parts[0] else parts[0] + "-" + rest
  }

  /** `formatAccessCode`: the text is empty exactly when nothing of the code survives cleaning. */
  function FormatAccessCode(code: string, sessionTitle: string): (r: string)
    ensures r == [] <==> Clean(code) == []
  {
    var cleaned := Clean(code);
    if sessionTitle == "NAPLAN" then
      NaplanEmpty(cleaned);
      JoinNonEmpty([Substring(cleaned, 0, 3), Substring(cleaned, 3, 5), Substring(cleaned, 5, 8)])
    else cleaned
  }

  /** The NAPLAN grouping is empty exactly when the code is. */
  lemma NaplanEmpty(c: string)
    ensures JoinNonEmpty([Substring(c, 0, 3), Substring(c, 3, 5), Substring(c, 5, 8)]) == [] <==> c == []
  {
    var x, y, z := Substring(c, 0, 3), Substring(c, 3, 5), Substring(c, 5, 8);
    JoinNonEmptyThree(x, y, z);
    if c == [] {
      assert x == [] && y == [] && z == [];
    } else {
      assert x != [];
    }
  }

  function RemoveHyphens(s: string): string {
    if s == [] then [] else (if s[0] == '-' then [] else [s[0]]) + RemoveHyphens(s[1..])
  }

  lemma {:induction false} RemoveHyphensAppend(a: string, b: string)
    ensures RemoveHyphens(a + b) == RemoveHyphens(a) + RemoveHyphens(b)
  {
    if a != [] {
      assert (a + b)[0] == a[0];
      assert (a + b)[1..] == a[1..] + b;
      RemoveHyphensAppend(a[1..], b);
    } else {
      assert a + b == b;
    }
  }

  lemma {:induction false} RemoveHyphensOfCode(s: string)
    requires IsCode(s)
    ensures RemoveHyphens(s) == s
  {
    if s != [] {
      RemoveHyphensOfCode(s[1..]);
    }
  }

  /** Outside NAPLAN the result is the cleaned code, with no hyphen in it. */
  lemma FormatAccessCodeOther(code: string, sessionTitle: string)
    requires sessionTitle != "NAPLAN"
    ensures FormatAccessCode(code, sessionTitle) == Clean(code)
    ensures '-' !in FormatAccessCode(code, sessionTitle)
  {
    var c := Clean(code);
    assert forall i :: 0 <= i < |c| ==> c[i] != '-' by {
      assert IsCode(c);
    }
  }

  /**
   * The exact NAPLAN layout, by the length of the cleaned code: nothing, one
   * group, `xxx-xx` or `xxx-xx-xxx` (the last group cut at the eighth character).
   */
  lemma FormatAccessCodeNaplan(code: string)
    ensures var c := Clean(code);
            var r := FormatAccessCode(code, "NAPLAN");
            if |c| <= 3 then r == c
            else if |c| <= 5 then r == c[..3] + "-" + c[3..]
            else if |c| <= 8 then r == c[..3] + "-" + c[3..5] + "-" + c[5..]
            else r == c[..3] + "-" + c[3..5] + "-" + c[5..8]
  {
    NaplanLayout(Clean(code));
  }

  /** The NAPLAN grouping of an already cleaned code, by its length. */
  lemma NaplanLayout(c: string)
    ensures var r := JoinNonEmpty([Substring(c, 0, 3), Substring(c, 3, 5), Substring(c, 5, 8)]);
            if |c| <= 3 then r == c
            else if |c| <= 5 then r == c[..3] + "-" + c[3..]
            else if |c| <= 8 then r == c[..3] + "-" + c[3..5] + "-" + c[5..]
            else r == c[..3] + "-" + c[3..5] + "-" + c[5..8]
  {
    var x, y, z := Substring(c, 0, 3), Substring(c, 3, 5), Substring(c, 5, 8);
    JoinNonEmptyThree(x, y, z);
    if |c| <= 3 {
      SubstringTail(c, 0, 3);
      assert x == c && y == [] && z == [];
    } else if |c| <= 5 {
      SubstringTail(c, 3, 5);
      assert x == c[..3] && y == c[3..] && z == [];
      assert JoinNonEmpty([y, z]) == y;
    } else if |c| <= 8 {
      SubstringTail(c, 5, 8);
      assert x == c[..3] && y == c[3..5] && z == c[5..];
      assert JoinNonEmpty([y, z]) == y + "-" + z;
    } else {
      assert x == c[..3] && y == c[3..5] && z == c[5..8];
      assert JoinNonEmpty([y, z]) == y + "-" + z;
    }
  }

  /** Joining three groups: empty groups contribute neither text nor a hyphen. */
  lemma JoinNonEmptyThree(x: string, y: string, z: string)
    ensures JoinNonEmpty([x, y, z]) ==
      if x == [] then JoinNonEmpty([y, z])
      else if y == [] && z == [] then x
      else x + "-" + JoinNonEmpty([y, z])
    ensures JoinNonEmpty([y, z]) ==
      if y == [] then z
      else if z == [] then y
      else y + "-" + z
  {
    assert JoinNonEmpty([z]) == z by {
      assert [z][1..] == [];
    }
    assert [y, z][0] == y && [y, z][1..] == [z];
    assert [x, y, z][0] == x && [x, y, z][1..] == [y, z];
  }

  lemma {:induction false} RemoveHyphensAround(u: string, v: string)
    ensures RemoveHyphens(u + "-" + v) == RemoveHyphens(u) + RemoveHyphens(v)
  {
    var w := u + "-";
    RemoveHyphensAppend(w, v);
    RemoveHyphensAppend(u, "-");
    assert RemoveHyphens("-") == [] by {
      assert "-"[0] == '-' && "-"[1..] == [];
    }
  }

  /** For NAPLAN, dropping the hyphens leaves the first eight characters of the cleaned code. */
  lemma FormatAccessCodeNaplanDigits(code: string)
    ensures var c := Clean(code);
            RemoveHyphens(FormatAccessCode(code, "NAPLAN")) == c[..if |c| < 8 then |c| else 8]
  {
    NaplanDigits(Clean(code));
  }

  /** The grouping of a cleaned code loses nothing but what follows the eighth character. */
  lemma NaplanDigits(c: string)
    requires IsCode(c)
    ensures RemoveHyphens(JoinNonEmpty([Substring(c, 0, 3), Substring(c, 3, 5), Substring(c, 5, 8)]))
            == c[..if |c| < 8 then |c| else 8]
  {
    NaplanLayout(c);
    if |c| <= 3 {
      RemoveHyphensOfCode(c);
      assert c[..|c|] == c;
    } else if |c| <= 5 {
      CodePrefix(c, 3);
      RemoveHyphensTwo(c[..3], c[3..]);
      assert c[..3] + c[3..] == c[..|c|];
    } else {
      var n := if |c| < 8 then |c| else 8;
      if |c| <= 8 {
        assert c[5..] == c[5..n];
      }
      RemoveHyphensGroups(c, n);
    }
  }

  /** Three code groups joined by hyphens lose exactly the hyphens. */
  lemma RemoveHyphensGroups(c: string, n: nat)
    requires IsCode(c) && 5 < n <= |c|
    ensures RemoveHyphens(c[..3] + "-" + c[3..5] + "-" + c[5..n]) == c[..n]
  {
    var g0, g1, g2 := c[..3], c[3..5], c[5..n];
    assert IsCode(g1) && IsCode(g2);
    CodePrefix(c, 3);
    RemoveHyphensTwo(g0, g1);
    RemoveHyphensTwo(g0 + "-" + g1, g2);
    assert g0 + g1 + g2 == c[..n];
  }

  /** Two code groups joined by a hyphen lose exactly that hyphen. */
  lemma RemoveHyphensTwo(u: string, v: string)
    requires IsCode(v)
    ensures RemoveHyphens(u + "-" + v) == RemoveHyphens(u) + v
  {
    RemoveHyphensAround(u, v);
    RemoveHyphensOfCode(v);
  }

  /** A prefix of a code is a code. */
  lemma CodePrefix(c: string, n: nat)
    requires IsCode(c) && n <= |c|
    ensures IsCode(c[..n]) && RemoveHyphens(c[..n]) == c[..n]
  {
    RemoveHyphensOfCode(c[..n]);
  }

  /**
   * For NAPLAN the hyphens only separate non-empty groups: at most two of
   * them, at positions 3 and 6, so none leads, trails or follows another.
   */
  lemma FormatAccessCodeNaplanHyphens(code: string)
    ensures var r := FormatAccessCode(code, "NAPLAN");
            && |r| <= 10
            && (forall i :: 0 <= i < |r| ==> (r[i] == '-' <==> i == 3 || i == 6))
            && (forall i :: 0 <= i < |r| ==> r[i] == '-' ==> 0 < i < |r| - 1 && r[i + 1] != '-')
  {
    NaplanHyphens(Clean(code));
  }

  /** The hyphen positions of the NAPLAN grouping of a cleaned code. */
  lemma NaplanHyphens(c: string)
    requires IsCode(c)
    ensures var r := JoinNonEmpty([Substring(c, 0, 3), Substring(c, 3, 5), Substring(c, 5, 8)]);
            && |r| <= 10
            && (forall i :: 0 <= i < |r| ==> (r[i] == '-' <==> i == 3 || i == 6))
            && (forall i :: 0 <= i < |r| ==> r[i] == '-' ==> 0 < i < |r| - 1 && r[i + 1] != '-')
  {
    NaplanLayout(c);
    var r := JoinNonEmpty([Substring(c, 0, 3), Substring(c, 3, 5), Substring(c, 5, 8)]);
    if |c| <= 3 {
      assert forall i :: 0 <= i < |r| ==> r[i] == c[i];
    } else if |c| <= 5 {
      assert r == c[..3] + "-" + c[3..];
      assert |r| == |c| + 1;
      assert forall i :: 0 <= i < 3 ==> r[i] == c[i];
      assert forall i :: 3 < i < |r| ==> r[i] == c[i - 1];
    } else {
      var n := if |c| <= 8 then |c| else 8;
      if |c| <= 8 {
        assert c[5..] == c[5..n];
      }
      ThreeGroups(c, n, r);
    }
  }

  /** Hyphens at 3 and 6 between the groups `c[..3]`, `c[3..5]` and `c[5..n]`. */
  lemma ThreeGroups(c: string, n: nat, r: string)
    requires IsCode(c) && 5 < n <= |c| && n <= 8
    requires r == c[..3] + "-" + c[3..5] + "-" + c[5..n]
    ensures |r| == n + 2
    ensures forall i :: 0 <= i < |r| ==> (r[i] == '-' <==> i == 3 || i == 6)
  {
    assert forall i :: 0 <= i < 3 ==> r[i] == c[i];
    assert forall i :: 3 < i < 6 ==> r[i] == c[i - 1];
    assert forall i :: 6 < i < |r| ==> r[i] == c[i - 2];
  }

  /** Formatting a code that was already cleaned gives the same text as formatting the original. */
  lemma FormatAccessCodeIdempotent(code: string, sessionTitle: string)
    ensures FormatAccessCode(Clean(code), sessionTitle) == FormatAccessCode(code, sessionTitle)
  {
    CleanKeepsCode(Clean(code));
  }

  /** Upper-case ASCII letters, digits and hyphens only. */
  predicate IsCodeText(s: string) {
    forall i :: 0 <= i < |s| ==> IsCodeChar(s[i]) || s[i] == '-'
  }

  /** Slices of a code joined by hyphens are code text. */
  lemma CodeTextJoin(u: string, v: string)
    requires IsCodeText(u) && IsCodeText(v)
    ensures IsCodeText(u + "-" + v)
  {
    var w := u + "-" + v;
    assert forall i :: 0 <= i < |u| ==> w[i] == u[i];
    assert forall i :: |u| < i < |w| ==> w[i] == v[i - |u| - 1];
  }

  /** The text holds only upper-case ASCII letters, digits and hyphens. */
  lemma FormatAccessCodeAlphabet(code: string, sessionTitle: string)
    ensures IsCodeText(FormatAccessCode(code, sessionTitle))
  {
    var c := Clean(code);
    assert IsCodeText(c);
    if sessionTitle == "NAPLAN" {
      FormatAccessCodeNaplan(code);
      var n := if |c| <= 8 then |c| else 8;
      if 3 < |c| {
        assert IsCodeText(c[..3]) && IsCodeText(c[3..]);
        CodeTextJoin(c[..3], c[3..]);
      }
      if 5 < |c| {
        assert IsCodeText(c[3..5]) && IsCodeText(c[5..n]);
        CodeTextJoin(c[..3], c[3..5]);
        CodeTextJoin(c[..3] + "-" + c[3..5], c[5..n]);
        if |c| <= 8 {
          assert c[5..] == c[5..n];
        }
      }
    }
  }
}
