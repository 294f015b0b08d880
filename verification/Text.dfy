/** The few string operations the formats rely on. */
module Text {
  import opened Wrappers

  // Unicode White_Space.
  predicate IsSpace(c: char) {
    var code := c as int;
    || 0x9 <= code <= 0xD || code in {0x20, 0x85, 0xA0, 0x1680, 0x2028, 0x2029, 0x202F, 0x205F, 0x3000}
    || 0x2000 <= code <= 0x200A
  }

  predicate Trimmed(text: string) {
    text != "" ==> !IsSpace(text[0]) && !IsSpace(text[|text| - 1])
  }

  function Trim(text: string): (r: string)
    ensures Trimmed(r)
    decreases |text|
  {
    if text == "" then ""
    else if IsSpace(text[0]) then Trim(text[1..])
    else if IsSpace(text[|text| - 1]) then Trim(text[..|text| - 1])
    else text
  }

  predicate OccursAt<T(==)>(text: seq<T>, pattern: seq<T>, at: int) {
    0 <= at && at + |pattern| <= |text| && text[at..at + |pattern|] == pattern
  }

  // The first occurrence at or after `from`.
  function Find<T(==)>(text: seq<T>, pattern: seq<T>, from: nat): (at: Option<nat>)
    ensures at.Some? ==> from <= at.value && at.value + |pattern| <= |text|
                         && text[at.value..at.value + |pattern|] == pattern
    decreases |text| - from
  {
    if from + |pattern| > |text| then None
    else if text[from..from + |pattern|] == pattern then Some(from)
    else Find(text, pattern, from + 1)
  }

  predicate Contains(text: string, pattern: string) {
    Find(text, pattern, 0).Some?
  }

  function Split(text: string, pattern: string): (pieces: seq<string>)
    requires pattern != ""
    ensures |pieces| >= 1
    decreases |text|
  {
    match Find(text, pattern, 0)
    case None => [text]
    case Some(at) => [text[..at]] + Split(text[at + |pattern|..], pattern)
  }

  lemma {:induction false} FindsFirst<T>(text: seq<T>, pattern: seq<T>, from: nat, at: nat)
    requires from <= at && OccursAt(text, pattern, at)
    requires forall i :: from <= i < at ==> !OccursAt(text, pattern, i)
    ensures Find(text, pattern, from) == Some(at)
    decreases at - from
  {
    if from < at {
      assert !OccursAt(text, pattern, from);
      FindsFirst(text, pattern, from + 1, at);
    }
  }

  // What is found is the first occurrence, and nothing is found only when there is none.
  lemma {:induction false} FindTells<T>(text: seq<T>, pattern: seq<T>, from: nat)
    ensures match Find(text, pattern, from)
            case Some(at) => from <= at && OccursAt(text, pattern, at) && forall i :: from <= i < at ==>
              !OccursAt(text, pattern, i)
            case None => forall i :: from <= i ==> !OccursAt(text, pattern, i)
    decreases |text| - from
  {
    if from + |pattern| <= |text| && !OccursAt(text, pattern, from) {
      FindTells(text, pattern, from + 1);
    }
  }

  lemma {:induction false} NeverFound(text: string, c: char, from: nat)
    requires c !in text
    ensures Find(text, [c], from) == None
    decreases |text| - from
  {
    if from < |text| {
      assert text[from..from + 1] == [text[from]] && text[from] in text;
      NeverFound(text, c, from + 1);
    }
  }

  lemma FoundAfter(piece: string, c: char, rest: string)
    requires c !in piece
    ensures Find(piece + [c] + rest, [c], 0) == Some(|piece|)
  {
    var text := piece + [c] + rest;
    forall i | 0 <= i < |piece| ensures !OccursAt(text, [c], i) {
      assert text[i] == piece[i] && piece[i] in piece;
      assert text[i..i + 1] == [text[i]];
    }
    assert text[|piece|..|piece| + 1] == [c];
    FindsFirst(text, [c], 0, |piece|);
  }

  lemma {:induction false} NothingBefore(text: string, c: char, from: nat)
    ensures match Find(text, [c], from)
            case Some(at) => forall i :: from <= i < at ==> text[i] != c
            case None => forall i :: from <= i < |text| ==> text[i] != c
    decreases |text| - from
  {
    if from < |text| {
      assert text[from..from + 1] == [text[from]];
      NothingBefore(text, c, from + 1);
    }
  }

  // ---- Lines ----

  function Strip(line: string): string {
    if line != "" && line[|line| - 1] == '\r' then line[..|line| - 1] else line
  }

  // Lines end at line feeds, each losing one carriage return before it; a last line may have no end.
  function Lines(text: string): seq<string>
    decreases |text|
  {
    if text == "" then []
    else
      match Find(text, "\n", 0)
      case None => [text]
      case Some(at) => [Strip(text[..at])] + Lines(text[at + 1..])
  }

  lemma LinesStep(line: string, rest: string)
    requires '\n' !in line
    ensures Lines(line + "\n" + rest) == [Strip(line)] + Lines(rest)
  {
    var text := line + "\n" + rest;
    FoundAfter(line, '\n', rest);
    assert text[..|line|] == line && text[|line| + 1..] == rest;
  }

  lemma LastLine(line: string)
    requires '\n' !in line && line != ""
    ensures Lines(line) == [line]
  {
    NeverFound(line, '\n', 0);
  }

  // A trimmed text is what trimming gives back once spaces are put around it.
  lemma TrimSpaced(text: string)
    requires Trimmed(text)
    ensures Trim(text) == text && Trim(" " + text) == text
  {
    assert (" " + text)[1..] == text;
  }

  lemma {:induction false} TrimKeepsChars(text: string)
    ensures forall c :: c in Trim(text) ==> c in text
    ensures |Trim(text)| <= |text|
    decreases |text|
  {
    if text != "" {
      if IsSpace(text[0]) {
        TrimKeepsChars(text[1..]);
      } else if IsSpace(text[|text| - 1]) {
        TrimKeepsChars(text[..|text| - 1]);
      }
    }
  }

  lemma {:induction false} TrimLeaves(text: string)
    ensures Trim(text) != "" <==> exists i :: 0 <= i < |text| && !IsSpace(text[i])
    decreases |text|
  {
    if text != "" {
      if IsSpace(text[0]) {
        TrimLeaves(text[1..]);
        assert forall i :: 0 < i < |text| ==> text[1..][i - 1] == text[i];
      } else if IsSpace(text[|text| - 1]) {
        TrimLeaves(text[..|text| - 1]);
      }
    }
  }
}
