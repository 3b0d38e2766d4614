/** `warptext` from tech_diagram.py: breaks a process identifier into lines of
    at most `width` characters for the diagram's process-node label.

    Each step looks for the last `_` among the first `width` characters of
    what is left. If there is one, the line is everything before it; if
    there is none, the line is the first `width` characters (a hard cut).
    The line is emitted followed by the marker `_\n` and wrapping continues
    one character past the break. So a break on an underscore turns that `_`
    into `_\n`, while a hard cut inserts a `_` that was not there and drops
    the character at index `width`. */
module TextWrap {
  import opened Strings

  /** The `max_chars` default, the width every process label is wrapped to. */
  const DefaultWidth: nat := 20

  /** What is emitted after every line but the last. */
  const Marker: string := "_\n"

  /** Where one wrapping step breaks `t`: the last `_` among the first
      `width` characters, or `width` itself when there is none. */
  function CutIndex(t: string, width: nat): (k: nat)
    requires |t| > width
    ensures k <= width
    ensures k < width ==> t[k] == '_'
    ensures forall j :: k < j < width ==> t[j] != '_'
    ensures k == width ==> forall j :: 0 <= j < width ==> t[j] != '_'
  {
    var last := RFind(t[..width], '_');
    if last == -1 then width else last
  }

  /** The wrapped text, one step per recursive call. The result is the input
      exactly when the input already fits; any break makes it longer. */
  function Wrap(text: string, width: nat): (r: string)
    ensures |r| >= |text|
    ensures |text| > width ==> |r| > |text|
    ensures r == text <==> |text| <= width
    decreases |text|
  {
    if |text| <= width then text
    else
      var k := CutIndex(text, width);
      text[..k] + Marker + Wrap(text[k + 1..], width)
  }

  /** The lines of the wrapped text: the text before each marker, then the
      final remainder. Every one of them fits in `width`. */
  function Lines(text: string, width: nat): (lines: seq<string>)
    ensures |lines| >= 1
    ensures forall i :: 0 <= i < |lines| ==> |lines[i]| <= width
    ensures |text| <= width <==> |lines| == 1
    decreases |text|
  {
    if |text| <= width then [text]
    else
      var k := CutIndex(text, width);
      [text[..k]] + Lines(text[k + 1..], width)
  }

  /** The indices of `text` at which a break happened, in increasing order:
      the underscore turned into a marker, or the character a hard cut
      dropped. There is one per marker. */
  function CutPositions(text: string, width: nat): (cuts: seq<nat>)
    ensures |cuts| == |Lines(text, width)| - 1
    ensures forall i :: 0 <= i < |cuts| ==> cuts[i] < |text|
    ensures Increasing(cuts)
    decreases |text|
  {
    if |text| <= width then []
    else
      var k := CutIndex(text, width);
      var rest := CutPositions(text[k + 1..], width);
      var shifted := Shift(rest, k + 1);
      ShiftAll(rest, k + 1);
      PrependCut(k, |text|, rest, shifted, [k] + shifted);
      [k] + shifted
  }

  /** Putting a break at `k` in front of the remainder's breaks, each moved
      past `k`, keeps every break inside the text and the order increasing. */
  lemma PrependCut(k: nat, n: nat, rest: seq<nat>, shifted: seq<nat>, cuts: seq<nat>)
    requires k < n
    requires forall i :: 0 <= i < |rest| ==> rest[i] < n - k - 1
    requires Increasing(rest)
    requires |shifted| == |rest|
    requires forall i :: 0 <= i < |rest| ==> shifted[i] == rest[i] + k + 1
    requires cuts == [k] + shifted
    ensures forall i :: 0 <= i < |cuts| ==> cuts[i] < n
    ensures Increasing(cuts)
  {
    forall i | 1 <= i < |cuts| ensures cuts[i] == rest[i - 1] + k + 1 {
      assert cuts[i] == shifted[i - 1];
    }
    forall i, j | 0 <= i < j < |cuts| ensures cuts[i] < cuts[j] {
      if i > 0 {
        assert rest[i - 1] < rest[j - 1];
      }
    }
  }

  /** Positions in strictly increasing order. */
  predicate Increasing(ps: seq<nat>)
  {
    forall i, j :: 0 <= i < j < |ps| ==> ps[i] < ps[j]
  }

  /** Every position moved `offset` places to the right: a position is in
      the result exactly when it lies at or past `offset` and its unshifted
      value is in `ps`, and the order is kept. */
  function Shift(ps: seq<nat>, offset: nat): (r: seq<nat>)
    ensures |r| == |ps|
    ensures forall q :: q in r <==> q >= offset && q - offset in ps
    ensures Increasing(ps) ==> Increasing(r)
    decreases |ps|
  {
    if |ps| == 0 then []
    else
      var rest := Shift(ps[1..], offset);
      var r := [ps[0] + offset] + rest;
      assert Increasing(ps) ==> Increasing(r) by {
        if Increasing(ps) {
          assert Increasing(ps[1..]) by {
            forall i, j | 0 <= i < j < |ps[1..]| ensures ps[1..][i] < ps[1..][j] {
              assert ps[1..][i] == ps[i + 1] && ps[1..][j] == ps[j + 1];
            }
          }
          forall i, j | 0 <= i < j < |r| ensures r[i] < r[j] {
            if i == 0 {
              assert r[j] in rest;
              var m :| 0 <= m < |ps[1..]| && ps[1..][m] == r[j] - offset;
              assert ps[0] < ps[m + 1];
            } else {
              assert r[i] == rest[i - 1] && r[j] == rest[j - 1];
            }
          }
        }
      }
      r
  }

  /** Element `i` of the shifted positions is element `i` of the original
      moved `offset` places. */
  lemma {:induction false} ShiftAt(ps: seq<nat>, offset: nat, i: nat)
    requires i < |ps|
    ensures Shift(ps, offset)[i] == ps[i] + offset
    decreases i
  {
    if i > 0 {
      ShiftAt(ps[1..], offset, i - 1);
    }
  }

  /** `ShiftAt` for every index. */
  lemma ShiftAll(ps: seq<nat>, offset: nat)
    ensures forall i :: 0 <= i < |ps| ==> Shift(ps, offset)[i] == ps[i] + offset
  {
    forall i | 0 <= i < |ps| ensures Shift(ps, offset)[i] == ps[i] + offset {
      ShiftAt(ps, offset, i);
    }
  }

  /** The wrapped text is its lines joined with the marker. */
  lemma {:induction false} WrapJoinsLines(text: string, width: nat)
    ensures Wrap(text, width) == Join(Lines(text, width), Marker)
    decreases |text|
  {
    if |text| > width {
      var k := CutIndex(text, width);
      var rest := Lines(text[k + 1..], width);
      WrapJoinsLines(text[k + 1..], width);
      assert ([text[..k]] + rest)[1..] == rest;
    }
  }

  /** Each break adds exactly one character: the output is as long as the
      input plus the number of breaks. */
  lemma {:induction false} WrapLength(text: string, width: nat)
    ensures |Wrap(text, width)| == |text| + |Lines(text, width)| - 1
    decreases |text|
  {
    if |text| > width {
      var k := CutIndex(text, width);
      WrapLength(text[k + 1..], width);
    }
  }

  /** Taking the inserted newlines back out (joining the lines with `_`)
      gives a string as long as the input that agrees with it everywhere
      except at the break positions, which all read `_`. */
  lemma {:induction false} UnwrapAgreesOutsideCuts(text: string, width: nat)
    ensures |Join(Lines(text, width), "_")| == |text|
    ensures forall i :: 0 <= i < |text| ==>
      Join(Lines(text, width), "_")[i] == if i in CutPositions(text, width) then '_' else text[i]
    decreases |text|
  {
    if |text| > width {
      var k := CutIndex(text, width);
      var tail := text[k + 1..];
      UnwrapAgreesOutsideCuts(tail, width);
      var joined := Join(Lines(text, width), "_");
      var cuts := CutPositions(text, width);
      UnwrapStep(text, width);
      assert cuts == [k] + Shift(CutPositions(tail, width), k + 1);
      AgreementStep(text, k, tail, Join(Lines(tail, width), "_"), CutPositions(tail, width), joined, cuts);
    }
  }

  /** One wrapping step of the unwrapped text: the first line, the `_` the
      break left, then the unwrapped remainder. */
  lemma UnwrapStep(text: string, width: nat)
    requires |text| > width
    ensures var k := CutIndex(text, width);
      Join(Lines(text, width), "_") == text[..k] + "_" + Join(Lines(text[k + 1..], width), "_")
  {
    var k := CutIndex(text, width);
    var rest := Lines(text[k + 1..], width);
    assert Lines(text, width) == [text[..k]] + rest;
    assert ([text[..k]] + rest)[1..] == rest;
  }

  /** One wrapping step preserves the agreement: if the rest unwraps to the
      tail up to its own cuts, the whole unwraps to the text up to the cut
      at `k` and the shifted rest cuts. */
  lemma AgreementStep(text: string, k: nat, tail: string, restJoined: string, restCuts: seq<nat>,
                      joined: string, cuts: seq<nat>)
    requires k < |text| && tail == text[k + 1..]
    requires |restJoined| == |tail|
    requires forall j :: 0 <= j < |tail| ==>
      restJoined[j] == if j in restCuts then '_' else tail[j]
    requires joined == text[..k] + "_" + restJoined
    requires cuts == [k] + Shift(restCuts, k + 1)
    ensures |joined| == |text|
    ensures forall i :: 0 <= i < |text| ==> joined[i] == if i in cuts then '_' else text[i]
  {
    forall i | 0 <= i < |text|
      ensures joined[i] == if i in cuts then '_' else text[i]
    {
      if i > k {
        assert joined[i] == restJoined[i - k - 1];
        assert tail[i - k - 1] == text[i];
      }
    }
  }

  /** Taking the newlines back out restores the input exactly when every
      break fell on an underscore; a hard cut on any other character loses
      that character. */
  lemma UnwrapRestoresIff(text: string, width: nat)
    ensures Join(Lines(text, width), "_") == text
        <==> forall p :: p in CutPositions(text, width) ==> text[p] == '_'
  {
    var joined := Join(Lines(text, width), "_");
    var cuts := CutPositions(text, width);
    UnwrapAgreesOutsideCuts(text, width);
    if forall p :: p in cuts ==> text[p] == '_' {
      assert forall i :: 0 <= i < |text| ==> joined[i] == text[i];
    }
    if joined == text {
      forall p | p in cuts ensures text[p] == '_' {
        assert joined[p] == '_';
      }
    }
  }

  /** A hard cut drops a character: "abcde" at width 2 has no underscore in
      "ab", so "c" is replaced by the marker and never comes back. */
  lemma HardCutDropsCharacter()
    ensures Wrap("abcde", 2) == "ab_\nde"
    ensures Lines("abcde", 2) == ["ab", "de"]
    ensures Join(Lines("abcde", 2), "_") != "abcde"
  {
    var t := "abcde";
    assert t[..2] == "ab";
    assert CutIndex(t, 2) == 2;
    assert t[3..] == "de";
    assert Lines(t, 2) == ["ab", "de"];
    assert Join(["ab", "de"], "_") == "ab_de";
    assert ("ab_de")[2] != t[2];
  }

  /** A break on an underscore loses nothing: "ab_cd" at width 3 becomes
      "ab_\ncd". */
  lemma UnderscoreBreakKeepsText()
    ensures Wrap("ab_cd", 3) == "ab_\ncd"
    ensures Join(Lines("ab_cd", 3), "_") == "ab_cd"
  {
    var t := "ab_cd";
    assert t[..3] == "ab_";
    assert RFind("ab_", '_') == 2;
    assert CutIndex(t, 3) == 2;
    assert t[..2] == "ab";
    assert t[3..] == "cd";
    assert Lines(t, 3) == ["ab", "cd"];
  }

  /** One iteration of the loop: moving the first line and its marker from
      the remainder onto the output keeps output-plus-wrapped-remainder
      unchanged. */
  lemma WrapStep(done: string, t: string, width: nat)
    requires |t| > width
    ensures var k := CutIndex(t, width);
      done + Wrap(t, width) == (done + t[..k] + Marker) + Wrap(t[k + 1..], width)
  {
    var k := CutIndex(t, width);
    var line := t[..k];
    var rest := Wrap(t[k + 1..], width);
    assert Wrap(t, width) == line + Marker + rest;
    assert done + (line + Marker + rest) == (done + line + Marker) + rest;
  }

  /** The loop of `warptext` as written: it appends one line and marker per
      iteration until the remainder fits, then appends the remainder. */
  method WarpText(text: string, maxChars: nat) returns (textFinal: string)
    ensures textFinal == Wrap(text, maxChars)
    ensures textFinal == Join(Lines(text, maxChars), Marker)
    ensures |text| <= maxChars ==> textFinal == text
  {
    textFinal := "";
    var textTemp := text;
    while |textTemp| > maxChars
      invariant textFinal + Wrap(textTemp, maxChars) == Wrap(text, maxChars)
      decreases |textTemp|
    {
      var lastUnderscore := RFind(textTemp[..maxChars], '_');
      if lastUnderscore == -1 {
        lastUnderscore := maxChars;
      }
      assert lastUnderscore == CutIndex(textTemp, maxChars);
      WrapStep(textFinal, textTemp, maxChars);
      textFinal := textFinal + textTemp[..lastUnderscore] + Marker;
      textTemp := textTemp[lastUnderscore + 1..];
    }
    textFinal := textFinal + textTemp;
    WrapJoinsLines(text, maxChars);
  }
}
