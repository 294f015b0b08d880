/**
 The text form of a semantic-graph node: printing, parsing, and when the two undo each other.

 Number formatting and Unicode normalisation are parameters: a printed number reads back, and
 normalisation neither invents line breaks nor disturbs an already normalised list.
 */
module NsgText {
  import opened Wrappers
  import opened Text

  datatype Mode = Canon | Draft
  datatype Status = Active | Archived
  datatype Zone = Zero | Two | Three | Auto

  datatype Edge = Edge(category: string, relation: string, weight: real, target: string)

  datatype Node = Node(
    id: string, graphId: string, kind: string, importance: real, mode: Mode, status: Status, zone: Zone,
    anchors: seq<string>, condition: string, trigger: string, consequence: string, constraint: string,
    sourceCharacterIds: seq<string>, injectCharacterIds: seq<string>, edges: seq<Edge>)

  datatype NsgError = Invalid

  datatype Codec = Codec(show: real -> string, read: string -> Option<real>, nfkc: string -> string)

  // ---- Assumptions about numbers and normalisation ----

  predicate Plain(text: string) {
    text != "" && forall c | c in text :: !IsSpace(c) && c != '[' && c != ']' && c != '\r' && c != '\n'
  }

  predicate ReadsBack(codec: Codec, x: real) {
    codec.read(codec.show(x)) == Some(x) && Plain(codec.show(x))
  }

  predicate OneLine(text: string) {
    '\n' !in text
  }

  ghost predicate Faithful(codec: Codec) {
    && ReadsBack(codec, 0.5) && codec.nfkc("") == ""
    && (forall s :: codec.read(s).Some? ==> ReadsBack(codec, codec.read(s).value))
    && (forall s :: OneLine(s) ==> OneLine(codec.nfkc(s)))
    && (forall s :: codec.nfkc(JoinList(SplitList(codec.nfkc(s)))) == JoinList(SplitList(codec.nfkc(s))))
  }

  // ---- Lists ----

  function JoinList(entries: seq<string>): string {
    if entries == [] then ""
    else if |entries| == 1 then entries[0]
    else entries[0] + ", " + JoinList(entries[1..])
  }

  function Entries(pieces: seq<string>): seq<string> {
    if pieces == [] then []
    else (if Trim(pieces[0]) == "" then [] else [Trim(pieces[0])]) + Entries(pieces[1..])
  }

  function SplitList(text: string): seq<string> {
    Entries(Split(text, ","))
  }

  predicate Listable(entry: string) {
    entry != "" && Trimmed(entry) && ',' !in entry && OneLine(entry)
  }

  lemma SplitAtComma(piece: string, rest: string)
    requires ',' !in piece
    ensures Split(piece + "," + rest, ",") == [piece] + Split(rest, ",")
  {
    var text := piece + "," + rest;
    FoundAfter(piece, ',', rest);
    assert text[..|piece|] == piece && text[|piece| + 1..] == rest;
  }

  lemma SplitOne(piece: string)
    requires ',' !in piece
    ensures Split(piece, ",") == [piece]
  {
    NeverFound(piece, ',', 0);
  }

  lemma {:induction false} SplitJoined(entries: seq<string>, lead: string)
    requires forall e | e in entries :: Listable(e)
    requires lead == "" || lead == " "
    ensures SplitList(lead + JoinList(entries)) == entries
  {
    if entries == [] {
      assert lead + JoinList(entries) == lead;
      SplitOne(lead);
      TrimSpaced("");
      assert Entries([lead]) == [] + Entries([]);
    } else {
      var first, rest := entries[0], entries[1..];
      assert first in entries;
      TrimSpaced(first);
      assert Trim(lead + first) == first by {
        if lead == "" {
          assert lead + first == first;
        }
      }
      if rest == [] {
        SplitOne(lead + first);
        assert Entries([lead + first]) == [first] + Entries([lead + first][1..]);
      } else {
        assert lead + JoinList(entries) == (lead + first) + "," + (" " + JoinList(rest));
        SplitAtComma(lead + first, " " + JoinList(rest));
        SplitJoined(rest, " ");
        var pieces := [lead + first] + Split(" " + JoinList(rest), ",");
        assert pieces[1..] == Split(" " + JoinList(rest), ",");
        assert Entries(pieces) == [first] + Entries(pieces[1..]);
      }
    }
  }

  // ---- Lines ----

  // A carriage return before a line feed is dropped.
  predicate StartsCrLf(text: string) {
    |text| >= 2 && text[0] == '\r' && text[1] == '\n'
  }

  function Unify(text: string): string {
    if text == "" then ""
    else if StartsCrLf(text) then "\n" + Unify(text[2..])
    else [text[0]] + Unify(text[1..])
  }

  function Unlines(lines: seq<string>): string {
    if lines == [] then "" else lines[0] + "\n" + Unlines(lines[1..])
  }

  lemma UnifyCrLf(rest: string)
    ensures Unify("\r\n" + rest) == "\n" + Unify(rest)
  {
    assert ("\r\n" + rest)[2..] == rest;
  }

  lemma UnifyChar(c: char, rest: string)
    requires c != '\r' || rest == "" || rest[0] != '\n'
    ensures Unify([c] + rest) == [c] + Unify(rest)
  {
    assert ([c] + rest)[1..] == rest;
  }

  lemma {:induction false} UnifyAppend(left: string, right: string)
    requires left != "" && right != "" ==> left[|left| - 1] != '\r' || right[0] != '\n'
    ensures Unify(left + right) == Unify(left) + Unify(right)
    decreases |left|
  {
    if left == "" {
      assert left + right == right && Unify(left) + Unify(right) == Unify(right);
    } else if right == "" {
      assert left + right == left && Unify(left) + Unify(right) == Unify(left);
    } else if StartsCrLf(left) {
      UnifyAppend(left[2..], right);
      assert left == "\r\n" + left[2..];
      AppendCrLf(left[2..], right);
    } else {
      UnifyAppend(left[1..], right);
      assert left == [left[0]] + left[1..];
      AppendChar(left[0], left[1..], right);
    }
  }

  lemma AppendCrLf(rest: string, right: string)
    requires Unify(rest + right) == Unify(rest) + Unify(right)
    ensures Unify(("\r\n" + rest) + right) == Unify("\r\n" + rest) + Unify(right)
  {
    UnifyCrLf(rest);
    UnifyCrLf(rest + right);
    Regroup("\r\n", rest, right);
    Regroup("\n", Unify(rest), Unify(right));
  }

  lemma AppendChar(c: char, rest: string, right: string)
    requires Unify(rest + right) == Unify(rest) + Unify(right)
    requires c != '\r' || rest + right == "" || (rest + right)[0] != '\n'
    requires c != '\r' || rest == "" || rest[0] != '\n'
    ensures Unify(([c] + rest) + right) == Unify([c] + rest) + Unify(right)
  {
    UnifyChar(c, rest);
    UnifyChar(c, rest + right);
    Regroup([c], rest, right);
    Regroup([c], Unify(rest), Unify(right));
  }

  lemma Regroup<T>(a: seq<T>, b: seq<T>, c: seq<T>)
    ensures (a + b) + c == a + (b + c)
  {
  }

  lemma {:induction false} UnifyLine(line: string)
    requires OneLine(line)
    ensures Unify(line + "\n") == Strip(line) + "\n"
    ensures OneLine(Strip(line))
    decreases |line|
  {
    var text := line + "\n";
    if line == "" {
      assert text == "\n" && text[1..] == "" && Strip(line) + "\n" == "\n";
    } else {
      UnifyTail(line);
      if line[1..] == "" {
        assert line == [line[0]];
        UnifyShort(line[0]);
      } else {
        UnifyLine(line[1..]);
        UnifyOneMore(line, line[1..]);
      }
    }
  }

  lemma UnifyOneMore(line: string, rest: string)
    requires OneLine(line) && line != "" && rest == line[1..] && rest != "" && Unify(rest + "\n") == Strip(rest) + "\n"
    ensures Unify(line + "\n") == Strip(line) + "\n"
  {
    var text := line + "\n";
    assert text[1..] == rest + "\n" && text[0] == line[0];
    assert line[1] in line && text[1] == line[1] && !StartsCrLf(text);
    assert Strip(line) == [line[0]] + Strip(rest);
    assert Strip(line) + "\n" == [line[0]] + (Strip(rest) + "\n");
  }

  lemma UnifyTail(line: string)
    requires line != "" && OneLine(line)
    ensures OneLine(line[1..]) && OneLine(Strip(line))
  {
  }

  lemma UnifyShort(c: char)
    requires c != '\n'
    ensures Unify([c] + "\n") == Strip([c]) + "\n"
  {
    var text := [c] + "\n";
    assert text[1..] == "\n" && text[2..] == "" && Unify("") == "" && Unify("\n") == "\n";
    if c == '\r' {
      assert StartsCrLf(text) && Strip([c]) == "";
    }
  }

  // What a printed line reads as: reading drops at most two carriage returns from its end.
  function Reread(line: string): string {
    Strip(Strip(line))
  }

  lemma ReadLine(line: string, rest: string)
    requires OneLine(line)
    ensures Lines(Unify(line + "\n" + rest)) == [Reread(line)] + Lines(Unify(rest))
  {
    assert line + "\n" + rest == (line + "\n") + rest;
    UnifyAppend(line + "\n", rest);
    UnifyLine(line);
    assert Strip(line) + "\n" + Unify(rest) == (Strip(line) + "\n") + Unify(rest);
    LinesStep(Strip(line), Unify(rest));
  }

  lemma {:induction false} ReadLines(lines: seq<string>)
    requires forall l | l in lines :: OneLine(l)
    ensures Lines(Unify(Unlines(lines))) == seq(|lines|, i requires 0 <= i < |lines| => Reread(lines[i]))
  {
    if lines != [] {
      assert lines[0] in lines;
      ReadLine(lines[0], Unlines(lines[1..]));
      ReadLines(lines[1..]);
      var rest := lines[1..];
      assert seq(|lines|, i requires 0 <= i < |lines| => Reread(lines[i]))
          == [Reread(lines[0])] + seq(|rest|, i requires 0 <= i < |rest| => Reread(rest[i]));
    }
  }

  // ---- Edges ----

  predicate ValidRelation(category: string, relation: string) {
    match category
    case "structural" => relation in {"located_in", "part_of", "owned_by", "contains"}
    case "causal" => relation in {"causes", "leads_to", "trigger", "prevents"}
    case "constraint" => relation in {"forbidden_by", "limited_by", "requires", "weak_against"}
    case "narrative" => relation in {"betrayed_by", "remembered_with", "changed_after", "allied_with"}
    case _ => false
  }

  predicate ValidEdge(e: Edge) {
    ValidRelation(e.category, e.relation) && Trim(e.target) != "" && 0.0 <= e.weight <= 1.0
  }

  function Key(e: Edge): (string, string, string) {
    (e.category, e.relation, e.target)
  }

  function EdgeHead(e: Edge, codec: Codec): string {
    e.category + ":" + e.relation + " [" + codec.show(e.weight) + "]"
  }

  function EdgeText(e: Edge, codec: Codec): string {
    EdgeHead(e, codec) + " -> " + e.target
  }

  function FindLast(text: string, pattern: string, below: nat): (at: Option<nat>)
    ensures at.Some? ==> at.value < below && OccursAt(text, pattern, at.value)
  {
    if below == 0 then None
    else if OccursAt(text, pattern, below - 1) then Some(below - 1)
    else FindLast(text, pattern, below - 1)
  }

  function TrimBrackets(text: string): string {
    if text != "" && text[|text| - 1] == ']' then TrimBrackets(text[..|text| - 1]) else text
  }

  function MakeEdge(typed: string, number: string, target: string, codec: Codec): Result<Edge, NsgError> {
    var colon := Find(typed, ":", 0);
    if colon.None? || codec.read(number).None? then Err(Invalid)
    else
      var edge := Edge(typed[..colon.value], typed[colon.value + 1..], codec.read(number).value, target);
      if ValidEdge(edge) then Ok(edge) else Err(Invalid)
  }

  function ParseEdgeHead(left: string, target: string, codec: Codec): Result<Edge, NsgError> {
    var bracket := FindLast(left, " [", |left|);
    if bracket.None? then Err(Invalid)
    else MakeEdge(left[..bracket.value], TrimBrackets(left[bracket.value + 2..]), target, codec)
  }

  function ParseEdge(text: string, codec: Codec): Result<Edge, NsgError> {
    var arrow := Find(text, " -> ", 0);
    if arrow.None? then Err(Invalid) else ParseEdgeHead(text[..arrow.value], text[arrow.value + 4..], codec)
  }

  // ---- Nodes ----

  predicate DistinctKeys(edges: seq<Edge>) {
    forall i, j :: 0 <= i < j < |edges| ==> Key(edges[i]) != Key(edges[j])
  }

  predicate NoneBlank(entries: seq<string>) {
    forall e | e in entries :: Trim(e) != ""
  }

  predicate Valid(n: Node) {
    && Trim(n.id) != "" && Trim(n.graphId) != "" && Trim(n.kind) != ""
    && 0.0 <= n.importance <= 1.0
    && NoneBlank(n.anchors) && NoneBlank(n.sourceCharacterIds) && NoneBlank(n.injectCharacterIds)
    && (forall e | e in n.edges :: ValidEdge(e))
    && DistinctKeys(n.edges)
  }

  // The keys of header and tag lines, in printing order.
  datatype Naming = Naming(fields: seq<string>, tags: seq<string>)
  type Names = x: Naming | |x.fields| == 9 && |x.tags| == 5
    witness Naming(["", "", "", "", "", "", "", "", ""], ["", "", "", "", ""])

  const NAMES: Names := Naming(
    ["ID", "GRAPH", "TYPE", "IMP", "MODE", "STATUS", "ZONE", "SOURCE_CHARACTERS", "INJECT_CHARACTERS"],
    ["ANCHORS", "CONDITION", "TRIGGER", "CONSEQUENCE", "CONSTRAINT"])

  function ModeText(mode: Mode): string {
    match mode
    case Canon => "canon"
    case Draft => "draft"
  }

  function StatusText(status: Status): string {
    match status
    case Active => "active"
    case Archived => "archived"
  }

  function ZoneText(zone: Zone): string {
    match zone
    case Zero => "0"
    case Two => "2"
    case Three => "3"
    case Auto => "auto"
  }

  function FieldValues(n: Node, codec: Codec): seq<string> {
    [n.id, n.graphId, n.kind, codec.show(n.importance), ModeText(n.mode), StatusText(n.status), ZoneText(n.zone),
     JoinList(n.sourceCharacterIds), JoinList(n.injectCharacterIds)]
  }

  function TagValues(n: Node): seq<string> {
    [JoinList(n.anchors), n.condition, n.trigger, n.consequence, n.constraint]
  }

  function Header(key: string, value: string): string {
    "# " + key + ": " + value
  }

  function Tagged(key: string, value: string): string {
    "@" + key + ": " + value
  }

  function Headers(keys: seq<string>, values: seq<string>): seq<string>
    requires |keys| == |values|
  {
    seq(|keys|, i requires 0 <= i < |keys| => Header(keys[i], values[i]))
  }

  function Taggeds(keys: seq<string>, values: seq<string>): seq<string>
    requires |keys| == |values|
  {
    seq(|keys|, i requires 0 <= i < |keys| => Tagged(keys[i], values[i]))
  }

  function EdgeLines(edges: seq<Edge>, codec: Codec): seq<string> {
    seq(|edges|, i requires 0 <= i < |edges| => "> " + EdgeText(edges[i], codec))
  }

  function NodeLines(n: Node, codec: Codec, names: Names): seq<string> {
    Headers(names.fields, FieldValues(n, codec)) + [""] + Taggeds(names.tags, TagValues(n)) + [""]
    + EdgeLines(n.edges, codec)
  }

  function Print(n: Node, codec: Codec, names: Names): string {
    Unlines(NodeLines(n, codec, names))
  }

  function Encode(n: Node, codec: Codec): Result<string, NsgError> {
    if Valid(n) then Ok(Print(n, codec, NAMES)) else Err(Invalid)
  }

  // What the lines read so far amount to.
  datatype Reading = Reading(fields: map<string, string>, tags: map<string, string>, edges: seq<Edge>)

  function Insert(entries: map<string, string>, text: string): Result<map<string, string>, NsgError> {
    var colon := Find(text, ":", 0);
    if colon.None? then Err(Invalid)
    else
      var key, value := Trim(text[..colon.value]), Trim(text[colon.value + 1..]);
      if key in entries then Err(Invalid) else Ok(entries[key := value])
  }

  predicate StartsWith(text: string, prefix: string) {
    |prefix| <= |text| && text[..|prefix|] == prefix
  }

  function AddLine(r: Reading, line: string, codec: Codec): Result<Reading, NsgError> {
    if StartsWith(line, "# ") then
      match Insert(r.fields, line[2..])
      case Ok(fields) => Ok(r.(fields := fields))
      case Err(e) => Err(e)
    else if StartsWith(line, "@") then
      match Insert(r.tags, line[1..])
      case Ok(tags) => Ok(r.(tags := tags))
      case Err(e) => Err(e)
    else if StartsWith(line, "> ") then
      match ParseEdge(line[2..], codec)
      case Ok(edge) => Ok(r.(edges := r.edges + [edge]))
      case Err(e) => Err(e)
    else if Trim(line) == "" then Ok(r)
    else Err(Invalid)
  }

  function Then(sofar: Result<Reading, NsgError>, line: string, codec: Codec): Result<Reading, NsgError> {
    if sofar.Err? then sofar else AddLine(sofar.value, line, codec)
  }

  function ReadAll(lines: seq<string>, codec: Codec): Result<Reading, NsgError> {
    if lines == [] then Ok(Reading(map[], map[], []))
    else Then(ReadAll(lines[..|lines| - 1], codec), lines[|lines| - 1], codec)
  }

  function Lookup(entries: map<string, string>, key: string): Option<string> {
    if key in entries then Some(entries[key]) else None
  }

  function TextOr(value: Option<string>, default: string): string {
    if value.Some? then value.value else default
  }

  // An absent, malformed or out-of-range importance is one half.
  function ImportanceOf(value: Option<string>, codec: Codec): real {
    if value.None? then 0.5
    else
      match codec.read(value.value)
      case Some(x) => if 0.0 <= x <= 1.0 then x else 0.5
      case None => 0.5
  }

  function ModeOf(value: Option<string>): Mode {
    if value == Some("draft") then Draft else Canon
  }

  function StatusOf(value: Option<string>): Status {
    if value.None? || value.value == "active" then Active else Archived
  }

  function ZoneOf(value: Option<string>): Zone {
    if value == Some("0") then Zero
    else if value == Some("2") then Two
    else if value == Some("3") then Three
    else Auto
  }

  function ListOf(value: Option<string>, codec: Codec): seq<string> {
    if value.None? then [] else SplitList(codec.nfkc(value.value))
  }

  function Build(r: Reading, codec: Codec, names: Names): Node {
    var f, t := names.fields, names.tags;
    Node(
      TextOr(Lookup(r.fields, f[0]), ""), TextOr(Lookup(r.fields, f[1]), "default"),
      TextOr(Lookup(r.fields, f[2]), ""), ImportanceOf(Lookup(r.fields, f[3]), codec),
      ModeOf(Lookup(r.fields, f[4])), StatusOf(Lookup(r.fields, f[5])), ZoneOf(Lookup(r.fields, f[6])),
      ListOf(Lookup(r.tags, t[0]), codec), TextOr(Lookup(r.tags, t[1]), ""), TextOr(Lookup(r.tags, t[2]), ""),
      TextOr(Lookup(r.tags, t[3]), ""), TextOr(Lookup(r.tags, t[4]), ""),
      ListOf(Lookup(r.fields, f[7]), codec), ListOf(Lookup(r.fields, f[8]), codec), r.edges)
  }

  predicate KnownKeys(r: Reading, names: Names) {
    (forall k | k in r.fields :: k in names.fields) && (forall k | k in r.tags :: k in names.tags)
  }

  function Interpret(r: Reading, codec: Codec, names: Names): Result<Node, NsgError> {
    if KnownKeys(r, names) && Valid(Build(r, codec, names)) then Ok(Build(r, codec, names)) else Err(Invalid)
  }

  function Understand(text: string, codec: Codec, names: Names): Result<Node, NsgError> {
    var read := ReadAll(Lines(Unify(text)), codec);
    if read.Err? then Err(Invalid) else Interpret(read.value, codec, names)
  }

  function Parse(text: string, codec: Codec): Result<Node, NsgError> {
    Understand(text, codec, NAMES)
  }

  // ---- Which nodes survive printing ----

  predicate Simple(text: string) {
    Trimmed(text) && OneLine(text)
  }

  predicate CleanList(entries: seq<string>, codec: Codec) {
    (forall e | e in entries :: Listable(e)) && codec.nfkc(JoinList(entries)) == JoinList(entries)
  }

  predicate EndsInReturn(text: string) {
    text != "" && text[|text| - 1] == '\r'
  }

  // Fields are trimmed and on one line, list entries have no comma, and numbers read back.
  predicate Tidy(n: Node, codec: Codec) {
    && Simple(n.id) && Simple(n.graphId) && Simple(n.kind)
    && Simple(n.condition) && Simple(n.trigger) && Simple(n.consequence) && Simple(n.constraint)
    && CleanList(n.anchors, codec) && CleanList(n.sourceCharacterIds, codec) && CleanList(n.injectCharacterIds, codec)
    && ReadsBack(codec, n.importance)
    && forall e | e in n.edges :: OneLine(e.target) && ReadsBack(codec, e.weight)
  }

  predicate NoReturns(n: Node) {
    forall e | e in n.edges :: !EndsInReturn(e.target)
  }

  // ---- Reading printed headers and tags ----

  function Zip(keys: seq<string>, values: seq<string>): map<string, string>
    requires |keys| == |values|
  {
    if keys == [] then map[]
    else Zip(keys[..|keys| - 1], values[..|values| - 1])[keys[|keys| - 1] := values[|values| - 1]]
  }

  predicate Distinct(keys: seq<string>) {
    forall i, j :: 0 <= i < j < |keys| ==> keys[i] != keys[j]
  }

  predicate KeyLike(key: string) {
    Trimmed(key) && ':' !in key
  }

  lemma {:induction false} ZipFinds(keys: seq<string>, values: seq<string>)
    requires |keys| == |values| && Distinct(keys)
    ensures forall k :: k in Zip(keys, values) <==> k in keys
    ensures forall i :: 0 <= i < |keys| ==> Lookup(Zip(keys, values), keys[i]) == Some(values[i])
  {
    if keys != [] {
      ZipFinds(keys[..|keys| - 1], values[..|values| - 1]);
      assert keys == keys[..|keys| - 1] + [keys[|keys| - 1]];
    }
  }

  predicate Capital(text: string) {
    forall c | c in text :: 'A' <= c <= 'Z' || c == '_'
  }

  lemma CapitalIsKey(text: string)
    requires Capital(text)
    ensures KeyLike(text) && OneLine(text)
  {
    if text != "" {
      assert text[0] in text && text[|text| - 1] in text;
    }
  }

  // Keys are distinct words in capitals.
  predicate WellNamed(names: Names) {
    && Distinct(names.fields) && Distinct(names.tags)
    && (forall k | k in names.fields :: Capital(k)) && (forall k | k in names.tags :: Capital(k))
  }

  lemma KeysAreKeys(keys: seq<string>)
    requires forall k | k in keys :: Capital(k)
    ensures forall k | k in keys :: KeyLike(k)
    ensures AllLines(keys)
  {
    forall k | k in keys ensures KeyLike(k) && OneLine(k) {
      CapitalIsKey(k);
    }
    forall i | 0 <= i < |keys| ensures OneLine(keys[i]) {
      assert keys[i] in keys;
    }
  }

  predicate AllLines(lines: seq<string>) {
    forall i :: 0 <= i < |lines| ==> OneLine(lines[i])
  }

  lemma FieldsDiffer()
    ensures Distinct(NAMES.fields)
  {
    var f := NAMES.fields;
    assert f[0][0] == 'I' && f[1][0] == 'G' && f[2][0] == 'T' && f[3][1] == 'M' && f[4][0] == 'M' && f[5][1] == 'T'
        && f[6][0] == 'Z' && f[7][1] == 'O' && f[8][1] == 'N';
    assert |f[0]| == 2 && |f[3]| == 3 && |f[8]| == 17;
  }

  lemma TagsDiffer()
    ensures Distinct(NAMES.tags)
  {
    var t := NAMES.tags;
    assert t[0][0] == 'A' && t[1][3] == 'D' && t[2][0] == 'T' && t[3][3] == 'S' && t[3][4] == 'E'
        && t[4][3] == 'S' && t[4][4] == 'T';
  }

  lemma FieldsAreCapital()
    ensures forall k | k in NAMES.fields :: Capital(k)
  {
    forall k | k in NAMES.fields ensures Capital(k) {
    }
  }

  lemma TagsAreCapital()
    ensures forall k | k in NAMES.tags :: Capital(k)
  {
    forall k | k in NAMES.tags ensures Capital(k) {
    }
  }

  lemma NamesAreWell()
    ensures WellNamed(NAMES)
  {
    FieldsDiffer();
    TagsDiffer();
    FieldsAreCapital();
    TagsAreCapital();
  }

  lemma InsertReads(entries: map<string, string>, key: string, value: string)
    requires KeyLike(key) && Trimmed(value)
    ensures Insert(entries, key + ": " + value) == if key in entries then Err(Invalid) else Ok(entries[key := value])
  {
    var text := key + ": " + value;
    assert text == key + [':'] + (" " + value);
    FoundAfter(key, ':', " " + value);
    assert text[..|key|] == key && text[|key| + 1..] == " " + value;
    TrimSpaced(key);
    TrimSpaced(value);
  }

  lemma LineParts(key: string, value: string)
    ensures StartsWith(Header(key, value), "# ") && Header(key, value)[2..] == key + ": " + value
    ensures StartsWith(Tagged(key, value), "@") && Tagged(key, value)[1..] == key + ": " + value
    ensures !StartsWith(Tagged(key, value), "# ")
  {
    assert Tagged(key, value)[0] == '@';
  }

  lemma HeaderReads(r: Reading, key: string, value: string, codec: Codec)
    requires KeyLike(key) && Trimmed(value) && key !in r.fields
    ensures AddLine(r, Header(key, value), codec) == Ok(r.(fields := r.fields[key := value]))
  {
    LineParts(key, value);
    InsertReads(r.fields, key, value);
  }

  lemma TaggedReads(r: Reading, key: string, value: string, codec: Codec)
    requires KeyLike(key) && Trimmed(value) && key !in r.tags
    ensures AddLine(r, Tagged(key, value), codec) == Ok(r.(tags := r.tags[key := value]))
  {
    LineParts(key, value);
    InsertReads(r.tags, key, value);
  }

  function RereadAll(lines: seq<string>): seq<string> {
    seq(|lines|, i requires 0 <= i < |lines| => Reread(lines[i]))
  }

  lemma ReadMore(lines: seq<string>, line: string, codec: Codec)
    ensures ReadAll(lines + [line], codec) == Then(ReadAll(lines, codec), line, codec)
  {
    assert (lines + [line])[..|lines|] == lines;
  }

  lemma HeadersReread(keys: seq<string>, values: seq<string>)
    requires |keys| == |values| && forall v | v in values :: Trimmed(v)
    ensures RereadAll(Headers(keys, values)) == Headers(keys, values)
    ensures RereadAll(Taggeds(keys, values)) == Taggeds(keys, values)
  {
    forall i | 0 <= i < |keys|
      ensures Reread(Header(keys[i], values[i])) == Header(keys[i], values[i])
      ensures Reread(Tagged(keys[i], values[i])) == Tagged(keys[i], values[i])
    {
      assert values[i] in values;
      EndStays("# " + keys[i] + ": ", values[i]);
      EndStays("@" + keys[i] + ": ", values[i]);
    }
  }

  lemma EndStays(head: string, value: string)
    requires head != "" && head[|head| - 1] == ' ' && Trimmed(value)
    ensures Reread(head + value) == head + value
  {
    var line := head + value;
    assert line[|line| - 1] == if value == "" then ' ' else value[|value| - 1];
  }

  predicate Printable(keys: seq<string>, values: seq<string>) {
    && |keys| == |values| && Distinct(keys)
    && (forall k | k in keys :: KeyLike(k)) && (forall v | v in values :: Trimmed(v))
  }

  lemma DistinctInit(keys: seq<string>)
    requires Distinct(keys) && keys != []
    ensures Distinct(keys[..|keys| - 1]) && keys[|keys| - 1] !in keys[..|keys| - 1]
  {
  }

  lemma LinesInit(keys: seq<string>, values: seq<string>)
    requires |keys| == |values| && keys != []
    ensures var n := |keys| - 1;
            && Headers(keys, values) == Headers(keys[..n], values[..n]) + [Header(keys[n], values[n])]
            && Taggeds(keys, values) == Taggeds(keys[..n], values[..n]) + [Tagged(keys[n], values[n])]
  {
  }

  lemma ZipInit(keys: seq<string>, values: seq<string>)
    requires |keys| == |values| && Distinct(keys) && keys != []
    ensures var n := |keys| - 1;
            && keys[n] !in Zip(keys[..n], values[..n])
            && Zip(keys, values) == Zip(keys[..n], values[..n])[keys[n] := values[n]]
  {
    DistinctInit(keys);
    ZipFinds(keys[..|keys| - 1], values[..|keys| - 1]);
  }

  lemma PrintableInit(keys: seq<string>, values: seq<string>)
    requires Printable(keys, values) && keys != []
    ensures var n := |keys| - 1;
            && Printable(keys[..n], values[..n]) && KeyLike(keys[n]) && Trimmed(values[n])
            && keys[n] !in Zip(keys[..n], values[..n])
            && Zip(keys, values) == Zip(keys[..n], values[..n])[keys[n] := values[n]]
  {
    var n := |keys| - 1;
    ZipInit(keys, values);
    DistinctInit(keys);
    assert keys[n] in keys && values[n] in values;
    FewerPrintable(keys, values, keys[..n], values[..n]);
  }

  lemma FewerPrintable(keys: seq<string>, values: seq<string>, fewer: seq<string>, theirs: seq<string>)
    requires Printable(keys, values) && |fewer| == |theirs| && Distinct(fewer)
    requires (forall k | k in fewer :: k in keys) && (forall v | v in theirs :: v in values)
    ensures Printable(fewer, theirs)
  {
  }

  lemma {:induction false} HeadersRead(keys: seq<string>, values: seq<string>, codec: Codec)
    requires Printable(keys, values)
    ensures ReadAll(Headers(keys, values), codec) == Ok(Reading(Zip(keys, values), map[], []))
  {
    if keys != [] {
      var n := |keys| - 1;
      PrintableInit(keys, values);
      LinesInit(keys, values);
      HeadersRead(keys[..n], values[..n], codec);
      ReadMore(Headers(keys[..n], values[..n]), Header(keys[n], values[n]), codec);
      HeaderReads(Reading(Zip(keys[..n], values[..n]), map[], []), keys[n], values[n], codec);
    }
  }

  lemma {:induction false} TaggedsRead(before: seq<string>, r: Reading, keys: seq<string>, values: seq<string>,
                                       codec: Codec)
    requires Printable(keys, values) && r.tags == map[]
    requires ReadAll(before, codec) == Ok(r)
    ensures ReadAll(before + Taggeds(keys, values), codec) == Ok(r.(tags := Zip(keys, values)))
  {
    if keys == [] {
      assert before + Taggeds(keys, values) == before;
    } else {
      var n := |keys| - 1;
      PrintableInit(keys, values);
      LinesInit(keys, values);
      TaggedsRead(before, r, keys[..n], values[..n], codec);
      var lines := before + Taggeds(keys[..n], values[..n]);
      assert before + Taggeds(keys, values) == lines + [Tagged(keys[n], values[n])];
      ReadMore(lines, Tagged(keys[n], values[n]), codec);
      TaggedReads(r.(tags := Zip(keys[..n], values[..n])), keys[n], values[n], codec);
    }
  }

  // ---- Reading printed edges ----

  predicate Word(text: string) {
    forall c | c in text :: 'a' <= c <= 'z' || c == '_'
  }

  lemma StructuralWords()
    ensures Word("structural") && Word("located_in") && Word("part_of") && Word("owned_by") && Word("contains")
  {
  }

  lemma CausalWords()
    ensures Word("causal") && Word("causes") && Word("leads_to") && Word("trigger") && Word("prevents")
  {
  }

  lemma ConstraintWords()
    ensures Word("constraint") && Word("forbidden_by") && Word("limited_by") && Word("requires") && Word("weak_against")
  {
  }

  lemma NarrativeWords()
    ensures Word("narrative") && Word("betrayed_by") && Word("remembered_with") && Word("changed_after")
              && Word("allied_with")
  {
  }

  lemma RelationsAreWords(category: string, relation: string)
    requires ValidRelation(category, relation)
    ensures Word(category) && Word(relation)
  {
    StructuralWords();
    CausalWords();
    ConstraintWords();
    NarrativeWords();
  }

  function Typed(e: Edge): string {
    e.category + ":" + e.relation
  }

  // The only space before the arrow is the one before the bracket.
  lemma HeadSpaces(e: Edge, codec: Codec)
    requires ValidRelation(e.category, e.relation) && ReadsBack(codec, e.weight)
    ensures EdgeHead(e, codec) == Typed(e) + (" [" + codec.show(e.weight) + "]")
    ensures forall i :: 0 <= i < |EdgeHead(e, codec)| && EdgeHead(e, codec)[i] == ' ' ==> i == |Typed(e)|
  {
    RelationsAreWords(e.category, e.relation);
    var typed, number := Typed(e), codec.show(e.weight);
    var left := EdgeHead(e, codec);
    assert left == typed + (" [" + number + "]");
    forall i | 0 <= i < |typed| ensures left[i] != ' ' {
      assert left[i] == typed[i];
      assert typed[i] in e.category || typed[i] == ':' || typed[i] in e.relation;
    }
    forall i | |typed| < i < |left| ensures left[i] != ' ' {
      assert left[i] == (" [" + number + "]")[i - |typed|];
      assert left[i] == '[' || left[i] in number || left[i] == ']';
    }
  }

  lemma OccursNot(text: string, pattern: string, at: nat, k: nat)
    requires k < |pattern| && at + k < |text| && text[at + k] != pattern[k]
    ensures !OccursAt(text, pattern, at)
  {
    if at + |pattern| <= |text| {
      assert text[at..at + |pattern|][k] == text[at + k];
    }
  }

  lemma {:induction false} LastFound(text: string, pattern: string, at: nat, below: nat)
    requires at < below <= |text| && pattern != "" && OccursAt(text, pattern, at)
    requires forall i :: at < i < below ==> text[i] != pattern[0]
    ensures FindLast(text, pattern, below) == Some(at)
  {
    if at < below - 1 {
      OccursNot(text, pattern, below - 1, 0);
      LastFound(text, pattern, at, below - 1);
    }
  }

  lemma BracketFound(e: Edge, codec: Codec)
    requires ValidRelation(e.category, e.relation) && ReadsBack(codec, e.weight)
    ensures FindLast(EdgeHead(e, codec), " [", |EdgeHead(e, codec)|) == Some(|Typed(e)|)
    ensures |Typed(e)| + 2 <= |EdgeHead(e, codec)|
    ensures EdgeHead(e, codec)[..|Typed(e)|] == Typed(e)
    ensures TrimBrackets(EdgeHead(e, codec)[|Typed(e)| + 2..]) == codec.show(e.weight)
  {
    var left, typed, number := EdgeHead(e, codec), Typed(e), codec.show(e.weight);
    HeadSpaces(e, codec);
    assert left[|typed|..|typed| + 2] == " [";
    LastFound(left, " [", |typed|, |left|);
    assert left[|typed| + 2..] == number + "]";
    BracketTrimmed(number);
  }

  lemma BracketTrimmed(number: string)
    requires Plain(number)
    ensures TrimBrackets(number + "]") == number
  {
    assert number[|number| - 1] in number;
    assert (number + "]")[..|number|] == number;
  }

  lemma ColonFound(e: Edge)
    requires ValidRelation(e.category, e.relation)
    ensures Find(Typed(e), ":", 0) == Some(|e.category|)
    ensures Typed(e)[..|e.category|] == e.category && Typed(e)[|e.category| + 1..] == e.relation
  {
    RelationsAreWords(e.category, e.relation);
    assert Typed(e) == e.category + [':'] + e.relation;
    FoundAfter(e.category, ':', e.relation);
  }

  lemma ArrowFound(e: Edge, codec: Codec)
    requires ValidRelation(e.category, e.relation) && ReadsBack(codec, e.weight)
    ensures var left, text := EdgeHead(e, codec), EdgeText(e, codec);
            Find(text, " -> ", 0) == Some(|left|) && text[..|left|] == left && text[|left| + 4..] == e.target
  {
    var left, text := EdgeHead(e, codec), EdgeText(e, codec);
    HeadSpaces(e, codec);
    assert text == left + (" -> " + e.target);
    forall i | 0 <= i < |left| ensures !OccursAt(text, " -> ", i) {
      assert text[i] == left[i];
      if left[i] == ' ' {
        assert text[i + 1] == left[i + 1] == '[';
        OccursNot(text, " -> ", i, 1);
      } else {
        OccursNot(text, " -> ", i, 0);
      }
    }
    assert text[|left|..|left| + 4] == " -> ";
    FindsFirst(text, " -> ", 0, |left|);
  }

  lemma EdgeMade(e: Edge, codec: Codec)
    requires ValidEdge(e) && ReadsBack(codec, e.weight)
    ensures MakeEdge(Typed(e), codec.show(e.weight), e.target, codec) == Ok(e)
  {
    ColonFound(e);
  }

  lemma EdgeReads(e: Edge, codec: Codec)
    requires ValidEdge(e) && ReadsBack(codec, e.weight)
    ensures ParseEdge(EdgeText(e, codec), codec) == Ok(e)
  {
    ArrowFound(e, codec);
    HeadReads(e, codec);
    EdgeVia(EdgeText(e, codec), EdgeHead(e, codec), e, codec);
  }

  lemma EdgeVia(text: string, left: string, e: Edge, codec: Codec)
    requires Find(text, " -> ", 0) == Some(|left|) && text[..|left|] == left && text[|left| + 4..] == e.target
    requires ParseEdgeHead(left, e.target, codec) == Ok(e)
    ensures ParseEdge(text, codec) == Ok(e)
  {
  }

  lemma HeadReads(e: Edge, codec: Codec)
    requires ValidEdge(e) && ReadsBack(codec, e.weight)
    ensures ParseEdgeHead(EdgeHead(e, codec), e.target, codec) == Ok(e)
  {
    BracketFound(e, codec);
    EdgeMade(e, codec);
    HeadVia(EdgeHead(e, codec), Typed(e), codec.show(e.weight), e, codec);
  }

  lemma HeadVia(left: string, typed: string, number: string, e: Edge, codec: Codec)
    requires FindLast(left, " [", |left|) == Some(|typed|) && |typed| + 2 <= |left|
    requires left[..|typed|] == typed && TrimBrackets(left[|typed| + 2..]) == number
    requires MakeEdge(typed, number, e.target, codec) == Ok(e)
    ensures ParseEdgeHead(left, e.target, codec) == Ok(e)
  {
  }

  // An edge as it reads back: carriage returns at the end of the target are gone.
  function Bare(e: Edge): Edge {
    e.(target := Reread(e.target))
  }

  function BareAll(edges: seq<Edge>): seq<Edge> {
    seq(|edges|, i requires 0 <= i < |edges| => Bare(edges[i]))
  }

  lemma StripLeaves(text: string)
    requires Trim(text) != ""
    ensures Strip(text) != "" && Trim(Strip(text)) != ""
  {
    TrimLeaves(text);
    var i :| 0 <= i < |text| && !IsSpace(text[i]);
    assert Strip(text)[i] == text[i];
    TrimLeaves(Strip(text));
  }

  lemma StripAfter(head: string, tail: string)
    requires tail != ""
    ensures Strip(head + tail) == head + Strip(tail)
  {
  }

  // Reading a line drops carriage returns of its tail and leaves the tail something.
  lemma BareAfter(head: string, tail: string)
    requires Trim(tail) != ""
    ensures Reread(head + tail) == head + Reread(tail) && Trim(Reread(tail)) != ""
  {
    StripLeaves(tail);
    StripLeaves(Strip(tail));
    StripAfter(head, tail);
    StripAfter(head, Strip(tail));
  }

  lemma BareLine(e: Edge, codec: Codec)
    requires ValidEdge(e)
    ensures Reread("> " + EdgeText(e, codec)) == "> " + EdgeText(Bare(e), codec)
    ensures ValidEdge(Bare(e))
  {
    BareInParts("> ", EdgeHead(e, codec), " -> ", e.target);
  }

  lemma BareInParts(mark: string, left: string, arrow: string, target: string)
    requires Trim(target) != ""
    ensures Reread(mark + (left + arrow + target)) == mark + (left + arrow + Reread(target))
              && Trim(Reread(target)) != ""
  {
    var head := mark + left + arrow;
    assert mark + (left + arrow + target) == head + target;
    assert mark + (left + arrow + Reread(target)) == head + Reread(target);
    BareAfter(head, target);
  }

  lemma AddEdgeLine(r: Reading, text: string, e: Edge, codec: Codec)
    requires ParseEdge(text, codec) == Ok(e)
    ensures AddLine(r, "> " + text, codec) == Ok(r.(edges := r.edges + [e]))
  {
    var line := "> " + text;
    assert line[0] == '>' && line[..2] == "> " && line[2..] == text;
  }

  lemma RereadSplit(left: seq<string>, right: seq<string>)
    ensures RereadAll(left + right) == RereadAll(left) + RereadAll(right)
  {
  }

  lemma EdgeLinesInit(edges: seq<Edge>, codec: Codec)
    requires edges != []
    ensures var n := |edges| - 1;
            && EdgeLines(edges, codec) == EdgeLines(edges[..n], codec) + ["> " + EdgeText(edges[n], codec)]
            && BareAll(edges) == BareAll(edges[..n]) + [Bare(edges[n])]
  {
  }

  lemma RereadEdges(edges: seq<Edge>, codec: Codec)
    requires edges != [] && ValidEdge(edges[|edges| - 1])
    ensures var n := |edges| - 1;
            RereadAll(EdgeLines(edges, codec))
            == RereadAll(EdgeLines(edges[..n], codec)) + ["> " + EdgeText(Bare(edges[n]), codec)]
  {
    var n := |edges| - 1;
    var line := "> " + EdgeText(edges[n], codec);
    EdgeLinesInit(edges, codec);
    BareLine(edges[n], codec);
    RereadSplit(EdgeLines(edges[..n], codec), [line]);
    assert RereadAll([line]) == [Reread(line)];
  }

  ghost predicate EdgesPrintable(edges: seq<Edge>, codec: Codec) {
    forall e | e in edges :: ValidEdge(e) && ReadsBack(codec, e.weight)
  }

  lemma EdgesStep(before: seq<string>, lines: seq<string>, text: string, r: Reading, edges: seq<Edge>, e: Edge,
                  codec: Codec)
    requires ReadAll(before + lines, codec) == Ok(r.(edges := edges)) && ParseEdge(text, codec) == Ok(e)
    ensures ReadAll(before + (lines + ["> " + text]), codec) == Ok(r.(edges := edges + [e]))
  {
    Regroup(before, lines, ["> " + text]);
    ReadMore(before + lines, "> " + text, codec);
    AddEdgeLine(r.(edges := edges), text, e, codec);
  }

  lemma {:induction false} EdgesRead(before: seq<string>, r: Reading, edges: seq<Edge>, codec: Codec)
    requires EdgesPrintable(edges, codec) && r.edges == [] && ReadAll(before, codec) == Ok(r)
    ensures ReadAll(before + RereadAll(EdgeLines(edges, codec)), codec) == Ok(r.(edges := BareAll(edges)))
  {
    if edges == [] {
      assert before + RereadAll(EdgeLines(edges, codec)) == before;
      assert BareAll(edges) == [];
    } else {
      var n := |edges| - 1;
      assert edges[n] in edges;
      EdgesRead(before, r, edges[..n], codec);
      BareLine(edges[n], codec);
      EdgeLinesInit(edges, codec);
      RereadEdges(edges, codec);
      EdgeReads(Bare(edges[n]), codec);
      EdgesStep(before, RereadAll(EdgeLines(edges[..n], codec)), EdgeText(Bare(edges[n]), codec), r,
        BareAll(edges[..n]),
                Bare(edges[n]), codec);
    }
  }

  // ---- Reading a printed node ----

  lemma {:induction false} JoinSimple(entries: seq<string>)
    requires forall e | e in entries :: Listable(e)
    ensures Simple(JoinList(entries))
    ensures entries != [] ==> JoinList(entries) != "" && entries[0] != "" && JoinList(entries)[0] == entries[0][0]
  {
    if entries != [] {
      assert entries[0] in entries;
      if |entries| > 1 {
        var rest := entries[1..];
        assert rest[0] in entries;
        JoinSimple(rest);
        var all := entries[0] + ", " + JoinList(rest);
        assert all[|all| - 1] == JoinList(rest)[|JoinList(rest)| - 1] && all[0] == entries[0][0];
      }
    }
  }

  lemma PlainIsSimple(text: string)
    requires Plain(text)
    ensures Simple(text)
  {
    assert text[0] in text && text[|text| - 1] in text;
  }

  lemma WordsAreSimple(mode: Mode, status: Status, zone: Zone)
    ensures Simple(ModeText(mode)) && Simple(StatusText(status)) && Simple(ZoneText(zone))
  {
  }

  lemma ValuesAreSimple(n: Node, codec: Codec)
    requires Tidy(n, codec)
    ensures forall v | v in FieldValues(n, codec) :: Simple(v)
    ensures forall v | v in TagValues(n) :: Simple(v)
  {
    JoinSimple(n.anchors);
    JoinSimple(n.sourceCharacterIds);
    JoinSimple(n.injectCharacterIds);
    PlainIsSimple(codec.show(n.importance));
    WordsAreSimple(n.mode, n.status, n.zone);
    NineSimple(n.id, n.graphId, n.kind, codec.show(n.importance), ModeText(n.mode), StatusText(n.status),
      ZoneText(n.zone),
               JoinList(n.sourceCharacterIds), JoinList(n.injectCharacterIds));
  }

  lemma NineSimple(a: string, b: string, c: string, d: string, e: string, f: string, g: string, h: string, i: string)
    requires Simple(a) && Simple(b) && Simple(c) && Simple(d) && Simple(e) && Simple(f) && Simple(g) && Simple(h)
               && Simple(i)
    ensures forall v | v in [a, b, c, d, e, f, g, h, i] :: Simple(v)
  {
  }

  lemma BlankReads(r: Reading, codec: Codec)
    ensures AddLine(r, "", codec) == Ok(r)
  {
  }

  // What a printed node reads as.
  function ReadingOf(n: Node, codec: Codec, names: Names): Reading {
    Reading(Zip(names.fields, FieldValues(n, codec)), Zip(names.tags, TagValues(n)), BareAll(n.edges))
  }

  lemma SimpleArePrintable(keys: seq<string>, values: seq<string>)
    requires |keys| == |values| && Distinct(keys)
    requires (forall k | k in keys :: Capital(k)) && (forall v | v in values :: Simple(v))
    ensures Printable(keys, values) && AllLines(keys) && AllLines(values)
    ensures AllLines(Headers(keys, values)) && AllLines(Taggeds(keys, values))
    ensures RereadAll(Headers(keys, values)) == Headers(keys, values)
    ensures RereadAll(Taggeds(keys, values)) == Taggeds(keys, values)
  {
    KeysAreKeys(keys);
    SimpleAreLines(values);
    HeadersAreLines(keys, values);
    HeadersReread(keys, values);
  }

  lemma PartsRead(fields: seq<string>, values: seq<string>, tags: seq<string>, texts: seq<string>, edges: seq<Edge>,
                  codec: Codec)
    requires Printable(fields, values) && Printable(tags, texts) && EdgesPrintable(edges, codec)
    ensures ReadAll(Headers(fields, values) + [""] + Taggeds(tags, texts) + [""]
              + RereadAll(EdgeLines(edges, codec)), codec)
         == Ok(Reading(Zip(fields, values), Zip(tags, texts), BareAll(edges)))
  {
    var headers, taggeds := Headers(fields, values), Taggeds(tags, texts);
    var r := Reading(Zip(fields, values), map[], []);
    HeadersRead(fields, values, codec);
    ReadMore(headers, "", codec);
    BlankReads(r, codec);
    TaggedsRead(headers + [""], r, tags, texts, codec);
    var r' := r.(tags := Zip(tags, texts));
    ReadMore(headers + [""] + taggeds, "", codec);
    BlankReads(r', codec);
    EdgesRead(headers + [""] + taggeds + [""], r', edges, codec);
  }

  lemma RereadParts(a: seq<string>, b: seq<string>, c: seq<string>)
    requires RereadAll(a) == a && RereadAll(b) == b
    ensures RereadAll(a + [""] + b + [""] + c) == a + [""] + b + [""] + RereadAll(c)
  {
    RereadSplit(a + [""] + b + [""], c);
    RereadSplit(a + [""] + b, [""]);
    RereadSplit(a + [""], b);
    RereadSplit(a, [""]);
    assert RereadAll([""]) == [""];
  }

  lemma NodeReads(n: Node, codec: Codec, names: Names)
    requires Valid(n) && Tidy(n, codec) && WellNamed(names)
    ensures ReadAll(Lines(Unify(Print(n, codec, names))), codec) == Ok(ReadingOf(n, codec, names))
  {
    var values, texts, edges := FieldValues(n, codec), TagValues(n), EdgeLines(n.edges, codec);
    ValuesAreSimple(n, codec);
    SimpleArePrintable(names.fields, values);
    SimpleArePrintable(names.tags, texts);
    EdgesAreLines(n.edges, codec);
    LinesJoined(Headers(names.fields, values), Taggeds(names.tags, texts), edges);
    ReadLines(NodeLines(n, codec, names));
    RereadParts(Headers(names.fields, values), Taggeds(names.tags, texts), edges);
    PartsRead(names.fields, values, names.tags, texts, n.edges, codec);
  }

  lemma ListReads(entries: seq<string>, codec: Codec)
    requires CleanList(entries, codec)
    ensures ListOf(Some(JoinList(entries)), codec) == entries
  {
    SplitJoined(entries, "");
    assert "" + JoinList(entries) == JoinList(entries);
  }

  lemma BuildReads(n: Node, codec: Codec, names: Names)
    requires Valid(n) && Tidy(n, codec) && WellNamed(names)
    ensures Build(ReadingOf(n, codec, names), codec, names) == n.(edges := BareAll(n.edges))
    ensures KnownKeys(ReadingOf(n, codec, names), names)
  {
    var r := ReadingOf(n, codec, names);
    ZipFinds(names.fields, FieldValues(n, codec));
    ZipFinds(names.tags, TagValues(n));
    FoundFields(n, codec, names, r);
    FoundTags(n, names, r);
    BuildFrom(n, codec, names, r);
  }

  ghost predicate FieldsFound(n: Node, codec: Codec, names: Names, r: Reading) {
    var f := names.fields;
    && Lookup(r.fields, f[0]) == Some(n.id) && Lookup(r.fields, f[1]) == Some(n.graphId)
    && Lookup(r.fields, f[2]) == Some(n.kind) && Lookup(r.fields, f[3]) == Some(codec.show(n.importance))
    && Lookup(r.fields, f[4]) == Some(ModeText(n.mode)) && Lookup(r.fields, f[5]) == Some(StatusText(n.status))
    && Lookup(r.fields, f[6]) == Some(ZoneText(n.zone))
    && Lookup(r.fields, f[7]) == Some(JoinList(n.sourceCharacterIds))
    && Lookup(r.fields, f[8]) == Some(JoinList(n.injectCharacterIds))
  }

  ghost predicate TagsFound(n: Node, names: Names, r: Reading) {
    var t := names.tags;
    && Lookup(r.tags, t[0]) == Some(JoinList(n.anchors)) && Lookup(r.tags, t[1]) == Some(n.condition)
    && Lookup(r.tags, t[2]) == Some(n.trigger) && Lookup(r.tags, t[3]) == Some(n.consequence)
    && Lookup(r.tags, t[4]) == Some(n.constraint)
  }

  lemma BuildFrom(n: Node, codec: Codec, names: Names, r: Reading)
    requires Valid(n) && Tidy(n, codec) && r.edges == BareAll(n.edges)
    requires FieldsFound(n, codec, names, r) && TagsFound(n, names, r)
    ensures Build(r, codec, names) == n.(edges := BareAll(n.edges))
  {
    ListReads(n.anchors, codec);
    ListReads(n.sourceCharacterIds, codec);
    ListReads(n.injectCharacterIds, codec);
    WordsRead(n.mode, n.status, n.zone);
  }

  lemma FoundFields(n: Node, codec: Codec, names: Names, r: Reading)
    requires forall i :: 0 <= i < 9 ==> Lookup(r.fields, names.fields[i]) == Some(FieldValues(n, codec)[i])
    ensures FieldsFound(n, codec, names, r)
  {
  }

  lemma FoundTags(n: Node, names: Names, r: Reading)
    requires forall i :: 0 <= i < 5 ==> Lookup(r.tags, names.tags[i]) == Some(TagValues(n)[i])
    ensures TagsFound(n, names, r)
  {
  }

  lemma WordsRead(mode: Mode, status: Status, zone: Zone)
    ensures ModeOf(Some(ModeText(mode))) == mode
    ensures StatusOf(Some(StatusText(status))) == status
    ensures ZoneOf(Some(ZoneText(zone))) == zone
  {
    assert "canon"[0] == 'c' && "draft"[0] == 'd' && "active"[1] == 'c' && "archived"[1] == 'r';
    assert "0"[0] == '0' && "2"[0] == '2' && "3"[0] == '3' && "auto"[0] == 'a';
  }

  lemma OneLineJoined(left: string, right: string)
    ensures OneLine(left + right) <==> OneLine(left) && OneLine(right)
  {
  }

  lemma HeaderIsLine(key: string, value: string)
    requires OneLine(key) && OneLine(value)
    ensures OneLine(Header(key, value)) && OneLine(Tagged(key, value))
  {
  }

  lemma EdgeIsLine(e: Edge, codec: Codec)
    requires ValidEdge(e) && OneLine(e.target) && ReadsBack(codec, e.weight)
    ensures OneLine("> " + EdgeText(e, codec))
  {
    RelationsAreWords(e.category, e.relation);
    OneLineJoined(e.category, ":" + e.relation);
    assert EdgeText(e, codec) == (e.category + ":" + e.relation) + (" [" + codec.show(e.weight) + "] -> " + e.target);
  }

  lemma HeadersAreLines(keys: seq<string>, values: seq<string>)
    requires |keys| == |values| && AllLines(keys) && AllLines(values)
    ensures AllLines(Headers(keys, values)) && AllLines(Taggeds(keys, values))
  {
    forall i | 0 <= i < |keys| ensures OneLine(Header(keys[i], values[i])) && OneLine(Tagged(keys[i], values[i])) {
      HeaderIsLine(keys[i], values[i]);
    }
  }

  lemma EdgesAreLines(edges: seq<Edge>, codec: Codec)
    requires forall e | e in edges :: ValidEdge(e) && OneLine(e.target) && ReadsBack(codec, e.weight)
    ensures AllLines(EdgeLines(edges, codec))
  {
    forall i | 0 <= i < |edges| ensures OneLine("> " + EdgeText(edges[i], codec)) {
      assert edges[i] in edges;
      EdgeIsLine(edges[i], codec);
    }
  }

  lemma SimpleAreLines(values: seq<string>)
    requires forall v | v in values :: Simple(v)
    ensures AllLines(values)
  {
    forall i | 0 <= i < |values| ensures OneLine(values[i]) {
      assert values[i] in values;
    }
  }

  lemma LinesJoined(a: seq<string>, b: seq<string>, c: seq<string>)
    requires AllLines(a) && AllLines(b) && AllLines(c)
    ensures forall l | l in a + [""] + b + [""] + c :: OneLine(l)
  {
  }

  // A tidy node reads back with the carriage returns at the end of edge targets gone.
  lemma PrintedReads(n: Node, codec: Codec, names: Names)
    requires Valid(n) && Tidy(n, codec) && WellNamed(names)
    ensures var bare := n.(edges := BareAll(n.edges));
            Understand(Print(n, codec, names), codec, names) == if Valid(bare) then Ok(bare) else Err(Invalid)
  {
    NodeReads(n, codec, names);
    BuildReads(n, codec, names);
  }

  // ---- What parsing yields is tidy ----

  lemma {:induction false} LinesAreLines(text: string)
    ensures AllLines(Lines(text))
    decreases |text|
  {
    if text != "" {
      NothingBefore(text, '\n', 0);
      var at := Find(text, "\n", 0);
      if at.Some? {
        assert OneLine(Strip(text[..at.value]));
        LinesAreLines(text[at.value + 1..]);
      }
    }
  }

  lemma {:induction false} PiecesHaveNoComma(text: string)
    ensures forall p | p in Split(text, ",") :: ',' !in p && forall c | c in p :: c in text
    decreases |text|
  {
    NothingBefore(text, ',', 0);
    var at := Find(text, ",", 0);
    if at.Some? {
      PiecesHaveNoComma(text[at.value + 1..]);
    }
  }

  lemma {:induction false} EntriesAreListable(pieces: seq<string>)
    requires forall p | p in pieces :: ',' !in p && OneLine(p)
    ensures forall e | e in Entries(pieces) :: Listable(e)
  {
    if pieces != [] {
      assert pieces[0] in pieces;
      TrimKeepsChars(pieces[0]);
      EntriesAreListable(pieces[1..]);
    }
  }

  lemma ListIsClean(value: string, codec: Codec)
    requires Faithful(codec) && OneLine(value)
    ensures CleanList(SplitList(codec.nfkc(value)), codec)
  {
    PiecesHaveNoComma(codec.nfkc(value));
    EntriesAreListable(Split(codec.nfkc(value), ","));
  }

  ghost predicate TidyReading(r: Reading, codec: Codec) {
    && (forall k | k in r.fields :: Simple(r.fields[k])) && (forall k | k in r.tags :: Simple(r.tags[k]))
    && forall e | e in r.edges :: OneLine(e.target) && ReadsBack(codec, e.weight)
  }

  lemma InsertIsTidy(entries: map<string, string>, text: string)
    requires OneLine(text) && (forall k | k in entries :: Simple(entries[k])) && Insert(entries, text).Ok?
    ensures forall k | k in Insert(entries, text).value :: Simple(Insert(entries, text).value[k])
  {
    var colon := Find(text, ":", 0).value;
    TrimKeepsChars(text[colon + 1..]);
  }

  lemma EdgeIsTidy(text: string, codec: Codec)
    requires Faithful(codec) && OneLine(text) && ParseEdge(text, codec).Ok?
    ensures OneLine(ParseEdge(text, codec).value.target) && ReadsBack(codec, ParseEdge(text, codec).value.weight)
  {
    var arrow := Find(text, " -> ", 0).value;
    var left := text[..arrow];
    var bracket := FindLast(left, " [", |left|).value;
    assert codec.read(TrimBrackets(left[bracket + 2..])).Some?;
  }

  lemma LineIsTidy(r: Reading, line: string, codec: Codec)
    requires Faithful(codec) && TidyReading(r, codec) && OneLine(line) && AddLine(r, line, codec).Ok?
    ensures TidyReading(AddLine(r, line, codec).value, codec)
  {
    if StartsWith(line, "# ") {
      InsertIsTidy(r.fields, line[2..]);
    } else if StartsWith(line, "@") {
      InsertIsTidy(r.tags, line[1..]);
    } else if StartsWith(line, "> ") {
      EdgeIsTidy(line[2..], codec);
    }
  }

  lemma {:induction false} ReadingIsTidy(lines: seq<string>, codec: Codec)
    requires Faithful(codec) && AllLines(lines) && ReadAll(lines, codec).Ok?
    ensures TidyReading(ReadAll(lines, codec).value, codec)
  {
    if lines != [] {
      var n := |lines| - 1;
      ReadingIsTidy(lines[..n], codec);
      LineIsTidy(ReadAll(lines[..n], codec).value, lines[n], codec);
    }
  }

  lemma ParsedIsTidy(text: string, codec: Codec, names: Names)
    requires Faithful(codec) && Understand(text, codec, names).Ok?
    ensures Valid(Understand(text, codec, names).value) && Tidy(Understand(text, codec, names).value, codec)
  {
    LinesAreLines(Unify(text));
    ReadingIsTidy(Lines(Unify(text)), codec);
    BuildIsTidy(ReadAll(Lines(Unify(text)), codec).value, codec, names);
  }

  lemma TextIsSimple(entries: map<string, string>, key: string, default: string)
    requires (forall k | k in entries :: Simple(entries[k])) && Simple(default)
    ensures Simple(TextOr(Lookup(entries, key), default))
    ensures Lookup(entries, key).Some? ==> OneLine(Lookup(entries, key).value)
  {
  }

  lemma ImportanceReadsBack(value: Option<string>, codec: Codec)
    requires Faithful(codec)
    ensures ReadsBack(codec, ImportanceOf(value, codec))
  {
  }

  lemma BuildIsTidy(r: Reading, codec: Codec, names: Names)
    requires Faithful(codec) && TidyReading(r, codec)
    ensures Tidy(Build(r, codec, names), codec)
  {
    var f, t := names.fields, names.tags;
    TextIsSimple(r.fields, f[0], "");
    TextIsSimple(r.fields, f[1], "default");
    TextIsSimple(r.fields, f[2], "");
    TextIsSimple(r.tags, t[1], "");
    TextIsSimple(r.tags, t[2], "");
    TextIsSimple(r.tags, t[3], "");
    TextIsSimple(r.tags, t[4], "");
    OptionalListIsClean(Lookup(r.tags, t[0]), codec);
    OptionalListIsClean(Lookup(r.fields, f[7]), codec);
    OptionalListIsClean(Lookup(r.fields, f[8]), codec);
    ImportanceReadsBack(Lookup(r.fields, f[3]), codec);
  }

  lemma OptionalListIsClean(value: Option<string>, codec: Codec)
    requires Faithful(codec) && (value.Some? ==> OneLine(value.value))
    ensures CleanList(ListOf(value, codec), codec)
  {
    if value.Some? {
      ListIsClean(value.value, codec);
    } else {
      assert JoinList([]) == "";
    }
  }

  // ---- The printer and the parser ----

  /** A valid node reads back from its text exactly when it is tidy and no edge target ends in a
      carriage return. */
  lemma ReadsBackExactly(n: Node, codec: Codec)
    requires Faithful(codec) && Valid(n)
    ensures Parse(Encode(n, codec).value, codec) == Ok(n) <==> Tidy(n, codec) && NoReturns(n)
  {
    NamesAreWell();
    ReadsBackNamed(n, codec, NAMES);
  }

  lemma ReadsBackNamed(n: Node, codec: Codec, names: Names)
    requires Faithful(codec) && Valid(n) && WellNamed(names)
    ensures Understand(Print(n, codec, names), codec, names) == Ok(n) <==> Tidy(n, codec) && NoReturns(n)
  {
    if Understand(Print(n, codec, names), codec, names) == Ok(n) {
      ParsedIsTidy(Print(n, codec, names), codec, names);
    }
    if Tidy(n, codec) {
      PrintedReads(n, codec, names);
      BareIsSame(n.edges);
    }
  }

  lemma BareIsSame(edges: seq<Edge>)
    ensures BareAll(edges) == edges <==> forall e | e in edges :: !EndsInReturn(e.target)
  {
    if forall e | e in edges :: !EndsInReturn(e.target) {
      forall i | 0 <= i < |edges| ensures Bare(edges[i]) == edges[i] {
        assert edges[i] in edges;
      }
    } else {
      var i :| 0 <= i < |edges| && EndsInReturn(edges[i].target);
      assert BareAll(edges)[i] != edges[i];
    }
  }

  /** What a text parses to reads back from its own printing exactly when no edge target ends in a
      carriage return, so in particular whenever the text has none. */
  lemma ReprintingIsStable(text: string, codec: Codec)
    requires Faithful(codec) && Parse(text, codec).Ok?
    ensures var n := Parse(text, codec).value;
            && Valid(n)
            && (Parse(Encode(n, codec).value, codec) == Ok(n) <==> NoReturns(n))
            && ('\r' !in text ==> NoReturns(n))
  {
    var n := Parse(text, codec).value;
    ParsedIsTidy(text, codec, NAMES);
    ReadsBackExactly(n, codec);
    if '\r' !in text {
      UnifyKeepsChars(text);
      LinesKeepChars(Unify(text));
      TargetsComeFromLines(Lines(Unify(text)), codec);
    }
  }

  lemma {:induction false} UnifyKeepsChars(text: string)
    requires '\r' !in text
    ensures Unify(text) == text
  {
    if text != "" {
      assert text[0] in text;
      UnifyKeepsChars(text[1..]);
    }
  }

  lemma {:induction false} LinesKeepChars(text: string)
    requires '\r' !in text
    ensures forall l | l in Lines(text) :: '\r' !in l
    decreases |text|
  {
    if text != "" {
      var at := Find(text, "\n", 0);
      if at.Some? {
        LinesKeepChars(text[at.value + 1..]);
      }
    }
  }

  lemma {:induction false} TargetsComeFromLines(lines: seq<string>, codec: Codec)
    requires ReadAll(lines, codec).Ok? && forall l | l in lines :: '\r' !in l
    ensures forall e | e in ReadAll(lines, codec).value.edges :: '\r' !in e.target
  {
    if lines != [] {
      var n := |lines| - 1;
      assert lines[n] in lines;
      TargetsComeFromLines(lines[..n], codec);
    }
  }

  // ---- No content can forge the mode ----

  predicate EndsLine(text: string) {
    text == "" || text[|text| - 1] == '\n'
  }

  lemma {:induction false} UnlinesEnds(lines: seq<string>)
    ensures EndsLine(Unlines(lines))
  {
    if lines != [] {
      UnlinesEnds(lines[1..]);
    }
  }

  lemma {:induction false} UnlinesJoined(left: seq<string>, right: seq<string>)
    ensures Unlines(left + right) == Unlines(left) + Unlines(right)
  {
    if left == [] {
      assert left + right == right;
    } else {
      UnlinesJoined(left[1..], right);
      assert (left + right)[1..] == left[1..] + right;
      assert Unlines(left + right) == (left[0] + "\n") + (Unlines(left[1..]) + Unlines(right));
    }
  }

  lemma {:induction false} UnifyEnds(text: string)
    requires EndsLine(text)
    ensures EndsLine(Unify(text))
    decreases |text|
  {
    if text != "" {
      if StartsCrLf(text) {
        UnifyEnds(text[2..]);
      } else {
        UnifyEnds(text[1..]);
      }
    }
  }

  lemma {:induction false} LinesJoin(left: string, right: string)
    requires EndsLine(left)
    ensures Lines(left + right) == Lines(left) + Lines(right)
    decreases |left|
  {
    if left == "" {
      assert left + right == right;
    } else {
      NothingBefore(left, '\n', 0);
      var at := Find(left, "\n", 0).value;
      var line, rest := left[..at], left[at + 1..];
      assert left == line + "\n" + rest;
      LinesJoin(rest, right);
      LinesJoinStep(line, rest, right);
    }
  }

  lemma LinesJoinStep(line: string, rest: string, right: string)
    requires OneLine(line) && Lines(rest + right) == Lines(rest) + Lines(right)
    ensures Lines((line + "\n" + rest) + right) == Lines(line + "\n" + rest) + Lines(right)
  {
    var a, b := Lines(rest), Lines(right);
    LinesStep(line, rest);
    LinesStep(line, rest + right);
    Regroup(line + "\n", rest, right);
    Regroup([Strip(line)], a, b);
  }

  // Whatever the lines around it hold, a whole line of the text is read as itself.
  lemma LineStands(before: seq<string>, line: string, after: seq<string>)
    requires OneLine(line) && Reread(line) == line
    ensures line in Lines(Unify(Unlines(before + [line] + after)))
  {
    var head, tail := Unlines(before), Unlines(after);
    UnlinesJoined(before + [line], after);
    UnlinesJoined(before, [line]);
    assert Unlines([line]) == line + "\n" + Unlines([]);
    assert Unlines(before + [line] + after) == head + (line + "\n" + tail);
    UnlinesEnds(before);
    UnifyAppend(head, line + "\n" + tail);
    UnifyEnds(head);
    LinesJoin(Unify(head), Unify(line + "\n" + tail));
    ReadLine(line, tail);
  }

  lemma AddLineKeeps(r: Reading, line: string, codec: Codec)
    requires AddLine(r, line, codec).Ok?
    ensures forall k | k in r.fields :: Lookup(AddLine(r, line, codec).value.fields, k) == Lookup(r.fields, k)
  {
  }

  lemma {:induction false} HeaderCounts(lines: seq<string>, key: string, value: string, codec: Codec)
    requires KeyLike(key) && Trimmed(value) && Header(key, value) in lines && ReadAll(lines, codec).Ok?
    ensures Lookup(ReadAll(lines, codec).value.fields, key) == Some(value)
  {
    var n := |lines| - 1;
    var before := ReadAll(lines[..n], codec).value;
    assert lines == lines[..n] + [lines[n]];
    if lines[n] == Header(key, value) {
      AddHeader(before, key, value, codec);
    } else {
      HeaderCounts(lines[..n], key, value, codec);
      AddLineKeeps(before, lines[n], codec);
    }
  }

  lemma AddHeader(r: Reading, key: string, value: string, codec: Codec)
    requires KeyLike(key) && Trimmed(value) && AddLine(r, Header(key, value), codec).Ok?
    ensures Lookup(AddLine(r, Header(key, value), codec).value.fields, key) == Some(value)
  {
    LineParts(key, value);
    InsertReads(r.fields, key, value);
  }

  // A header of the printed node is what the parser finds under that key.
  lemma HeaderStands(n: Node, i: nat, value: string, codec: Codec, names: Names)
    requires i < 9 && FieldValues(n, codec)[i] == value && Simple(value) && WellNamed(names)
    requires ReadAll(Lines(Unify(Print(n, codec, names))), codec).Ok?
    ensures Lookup(ReadAll(Lines(Unify(Print(n, codec, names))), codec).value.fields, names.fields[i]) == Some(value)
  {
    var lines, key := NodeLines(n, codec, names), names.fields[i];
    assert key in names.fields;
    CapitalIsKey(key);
    NodeLineAt(n, i, codec, names);
    EndStays("# " + key + ": ", value);
    HeaderIsLine(key, value);
    LineStands(lines[..i], Header(key, value), lines[i + 1..]);
    HeaderCounts(Lines(Unify(Unlines(lines))), key, value, codec);
  }

  lemma NodeLineAt(n: Node, i: nat, codec: Codec, names: Names)
    requires i < 9
    ensures var lines := NodeLines(n, codec, names);
            i < |lines| && lines == lines[..i] + [Header(names.fields[i], FieldValues(n, codec)[i])] + lines[i + 1..]
  {
    assert NodeLines(n, codec, names)[i] == Header(names.fields[i], FieldValues(n, codec)[i]);
  }

  /** Whatever text a node's fields and edges hold, line breaks included, its printed form either
      fails to parse or parses to a node of the same mode, status and zone. */
  lemma ModeCannotBeForged(n: Node, codec: Codec)
    requires Valid(n) && Parse(Encode(n, codec).value, codec).Ok?
    ensures var m := Parse(Encode(n, codec).value, codec).value;
            m.mode == n.mode && m.status == n.status && m.zone == n.zone
  {
    NamesAreWell();
    PrintedWords(n, codec, NAMES);
  }

  lemma PrintedWords(n: Node, codec: Codec, names: Names)
    requires WellNamed(names) && Understand(Print(n, codec, names), codec, names).Ok?
    ensures var m := Understand(Print(n, codec, names), codec, names).value;
            m.mode == n.mode && m.status == n.status && m.zone == n.zone
  {
    WordValues(n, codec);
    HeaderStands(n, 4, ModeText(n.mode), codec, names);
    HeaderStands(n, 5, StatusText(n.status), codec, names);
    HeaderStands(n, 6, ZoneText(n.zone), codec, names);
    WordsRead(n.mode, n.status, n.zone);
  }

  lemma WordValues(n: Node, codec: Codec)
    ensures FieldValues(n, codec)[4] == ModeText(n.mode)
    ensures FieldValues(n, codec)[5] == StatusText(n.status)
    ensures FieldValues(n, codec)[6] == ZoneText(n.zone)
    ensures Simple(ModeText(n.mode)) && Simple(StatusText(n.status)) && Simple(ZoneText(n.zone))
  {
  }

  // ---- A carriage return at the end of a file ----

  lemma {:induction false} UnifyOneLine(text: string)
    requires OneLine(text)
    ensures Unify(text) == text
  {
    if text != "" {
      assert text[1..] == "" || text[1] in text;
      UnifyOneLine(text[1..]);
    }
  }

  // A last line without an end is read as it is.
  lemma OpenLineReads(text: string, line: string)
    requires EndsLine(text) && line != "" && OneLine(line)
    ensures Lines(Unify(text + line)) == Lines(Unify(text)) + [line]
  {
    UnifyAppend(text, line);
    UnifyOneLine(line);
    UnifyEnds(text);
    LinesJoin(Unify(text), line);
    NeverFound(line, '\n', 0);
  }

  // The printed node but for its last edge, whose line ends the file in a carriage return.
  function OpenText(n: Node, es: seq<Edge>, e: Edge, codec: Codec, names: Names): string {
    Print(n.(edges := es), codec, names) + ("> " + EdgeText(Returned(e), codec))
  }

  function Returned(e: Edge): Edge {
    e.(target := e.target + "\r")
  }

  lemma ReturnedIsValid(e: Edge)
    requires ValidEdge(e) && OneLine(e.target)
    ensures ValidEdge(Returned(e)) && OneLine(Returned(e).target) && EndsInReturn(Returned(e).target)
    ensures !EndsInReturn(e.target) ==> Bare(Returned(e)) == e
  {
    TrimLeaves(e.target);
    var i :| 0 <= i < |e.target| && !IsSpace(e.target[i]);
    assert Returned(e).target[i] == e.target[i];
    TrimLeaves(Returned(e).target);
  }

  lemma OpenTextReads(n: Node, es: seq<Edge>, e: Edge, codec: Codec, names: Names)
    requires Valid(n) && Tidy(n, codec) && NoReturns(n) && n.edges == es + [e] && WellNamed(names)
    ensures ReadAll(Lines(Unify(OpenText(n, es, e, codec, names))), codec)
         == Ok(ReadingOf(n.(edges := es), codec, names).(edges := es + [Returned(e)]))
  {
    var m, last := n.(edges := es), "> " + EdgeText(Returned(e), codec);
    assert e in n.edges && forall d :: d in es ==> d in n.edges;
    assert forall i :: 0 <= i < |es| ==> n.edges[i] == es[i];
    ReturnedIsValid(e);
    EdgeIsLine(Returned(e), codec);
    UnlinesEnds(NodeLines(m, codec, names));
    OpenLineReads(Print(m, codec, names), last);
    NodeReads(m, codec, names);
    BareIsSame(es);
    EdgeReads(Returned(e), codec);
    ReadMore(Lines(Unify(Print(m, codec, names))), last, codec);
    AddEdgeLine(ReadingOf(m, codec, names), EdgeText(Returned(e), codec), Returned(e), codec);
  }

  lemma ReturnedStaysValid(n: Node, es: seq<Edge>, e: Edge)
    requires Valid(n) && NoReturns(n) && n.edges == es + [e] && ValidEdge(Returned(e))
               && EndsInReturn(Returned(e).target)
    ensures Valid(n.(edges := es + [Returned(e)]))
  {
    var edges := es + [Returned(e)];
    forall i, j | 0 <= i < j < |edges| ensures Key(edges[i]) != Key(edges[j]) {
      assert edges[i] == n.edges[i] && n.edges[i] in n.edges;
      assert j < |es| ==> edges[j] == n.edges[j];
    }
    forall d | d in edges ensures ValidEdge(d) {
      assert d in es ==> d in n.edges;
    }
  }

  /** The text of any tidy node, with its last line ended by a lone carriage return, parses to a node whose
      last target keeps the carriage return; printed and parsed again it has lost it. */
  lemma LastReturnIsLost(n: Node, es: seq<Edge>, e: Edge, codec: Codec)
    requires Faithful(codec) && Valid(n) && Tidy(n, codec) && NoReturns(n) && n.edges == es + [e]
    ensures var m := n.(edges := es + [Returned(e)]);
            && m != n && Valid(m)
            && Parse(OpenText(n, es, e, codec, NAMES), codec) == Ok(m)
            && Parse(Encode(m, codec).value, codec) == Ok(n)
  {
    NamesAreWell();
    LastReturnIsLostNamed(n, es, e, codec, NAMES);
  }

  lemma LastReturnIsLostNamed(n: Node, es: seq<Edge>, e: Edge, codec: Codec, names: Names)
    requires Valid(n) && Tidy(n, codec) && NoReturns(n) && n.edges == es + [e] && WellNamed(names)
    ensures var m := n.(edges := es + [Returned(e)]);
            && m != n && Valid(m)
            && Understand(OpenText(n, es, e, codec, names), codec, names) == Ok(m)
            && Understand(Print(m, codec, names), codec, names) == Ok(n)
  {
    assert n.edges[|es|] == e;
    ReturnedIsValid(e);
    ReturnedStaysValid(n, es, e);
    assert (es + [Returned(e)])[|es|].target != n.edges[|es|].target;
    OpenTextUnderstood(n, es, e, codec, names);
    ReprintingLoses(n, es, e, codec, names);
  }

  lemma FewerEdges(n: Node, es: seq<Edge>, e: Edge, codec: Codec)
    requires Valid(n) && Tidy(n, codec) && n.edges == es + [e]
    ensures Valid(n.(edges := es)) && Tidy(n.(edges := es), codec)
  {
    assert forall d :: d in es ==> d in n.edges;
    assert forall i :: 0 <= i < |es| ==> n.edges[i] == es[i];
  }

  lemma OpenTextUnderstood(n: Node, es: seq<Edge>, e: Edge, codec: Codec, names: Names)
    requires Valid(n) && Tidy(n, codec) && NoReturns(n) && n.edges == es + [e] && WellNamed(names)
    requires Valid(n.(edges := es + [Returned(e)]))
    ensures Understand(OpenText(n, es, e, codec, names), codec, names) == Ok(n.(edges := es + [Returned(e)]))
  {
    FewerEdges(n, es, e, codec);
    OpenTextReads(n, es, e, codec, names);
    BuildReads(n.(edges := es), codec, names);
    EdgesOnly(ReadingOf(n.(edges := es), codec, names), es + [Returned(e)], codec, names);
  }

  // Of what was read, the edges concern the edges only.
  lemma EdgesOnly(r: Reading, edges: seq<Edge>, codec: Codec, names: Names)
    ensures Build(r.(edges := edges), codec, names) == Build(r, codec, names).(edges := edges)
    ensures KnownKeys(r.(edges := edges), names) <==> KnownKeys(r, names)
  {
  }

  lemma ReprintingLoses(n: Node, es: seq<Edge>, e: Edge, codec: Codec, names: Names)
    requires Valid(n) && Tidy(n, codec) && NoReturns(n) && n.edges == es + [e] && WellNamed(names)
    requires Valid(n.(edges := es + [Returned(e)]))
    ensures Understand(Print(n.(edges := es + [Returned(e)]), codec, names), codec, names) == Ok(n)
  {
    var m := n.(edges := es + [Returned(e)]);
    assert n.edges[|es|] == e;
    ReturnedIsValid(e);
    assert Tidy(m, codec) by {
      assert forall d :: d in es ==> d in n.edges;
    }
    PrintedReads(m, codec, names);
    forall i | 0 <= i < |es| ensures Bare(m.edges[i]) == n.edges[i] {
      assert n.edges[i] in n.edges;
    }
    assert BareAll(m.edges) == n.edges;
  }

  // One tidy node with one edge, for the codec below.
  function SampleNode(): Node {
    Node("a", "default", "event", 0.5, Draft, Active, Auto, [], "", "", "", "", [], [],
         [Edge("causal", "causes", 0.5, "Ann")])
  }

  lemma SampleIsTidy()
    ensures Valid(SampleNode()) && Tidy(SampleNode(), SampleCodec()) && NoReturns(SampleNode())
  {
    SampleIsFaithful();
    assert !IsSpace("a"[0]) && !IsSpace("default"[0]) && !IsSpace("event"[0]) && !IsSpace("Ann"[0]);
    TrimLeaves("a");
    TrimLeaves("default");
    TrimLeaves("event");
    TrimLeaves("Ann");
  }

  function SampleCodec(): Codec {
    Codec(x => if x == 0.5 then "0.5" else "1",
          s => if s == "0.5" then Some(0.5) else if s == "1" then Some(1.0) else None,
          s => s)
  }

  lemma SampleIsFaithful()
    ensures Faithful(SampleCodec())
  {
    var codec := SampleCodec();
    assert Plain("0.5") && Plain("1");
    assert "0.5"[0] != "1"[0];
  }

  lemma OneEdgeChanges(n: Node, e: Edge, codec: Codec)
    requires Faithful(codec) && Valid(n) && Tidy(n, codec) && NoReturns(n) && n.edges == [e]
    ensures var read := Parse(OpenText(n, [], e, codec, NAMES), codec);
            && read == Ok(n.(edges := [Returned(e)])) && read != Ok(n)
            && Parse(Encode(n.(edges := [Returned(e)]), codec).value, codec) == Ok(n)
  {
    assert [] + [e] == [e] && [] + [Returned(e)] == [Returned(e)];
    LastReturnIsLost(n, [], e, codec);
  }

  /** A concrete file that printing changes: "... -> Ann" with a carriage return and no line feed. */
  lemma ReturnedFileChanges()
    ensures var n, codec := SampleNode(), SampleCodec();
            var m := n.(edges := [n.edges[0].(target := "Ann\r")]);
            && Faithful(codec) && Valid(m)
            && Parse(OpenText(n, [], n.edges[0], codec, NAMES), codec) == Ok(m)
            && Parse(Encode(m, codec).value, codec) == Ok(n) != Ok(m)
  {
    var n := SampleNode();
    SampleIsFaithful();
    SampleIsTidy();
    assert Returned(n.edges[0]) == n.edges[0].(target := "Ann\r");
    OneEdgeChanges(n, n.edges[0], SampleCodec());
  }
}
