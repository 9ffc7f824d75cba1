/** The settings-doc scanner: which section heading and which comment belong to each field. */
module SettingsScan {
  import opened Wrappers

  // ---------- scanning one gap ----------

  /**
   A source line as the two regular expressions and the `#` test sort it. A comment carries both
   readings of its text: the title it gives inside a box, and the comment text it gives outside.
   */
  datatype Line = Rule | Heading(title: string) | Comment(boxTitle: string, text: string) | Code | Blank

  datatype Scan = Scan(current: string, block: seq<string>, boxed: bool)

  function Turn(s: Scan, line: Line): Scan {
    match line
    case Rule => Scan(s.current, [], !s.boxed)
    case Heading(title) => Scan(title, [], s.boxed)
    case Comment(boxTitle, text) => if s.boxed then Scan(boxTitle, [], true) else s.(block := s.block + [text])
    case Code => s.(block := [])
    case Blank => s
  }

  /** The state after the first `n` lines of a gap. */
  function ScanTo(current: string, gap: seq<Line>, n: nat): Scan
    requires n <= |gap|
  {
    if n == 0 then Scan(current, [], false) else Turn(ScanTo(current, gap, n - 1), gap[n - 1])
  }

  function ScanGap(current: string, gap: seq<Line>): Scan {
    ScanTo(current, gap, |gap|)
  }

  // The same gap, read without carrying state.

  /** An odd number of rules stands before line `i`. */
  predicate InBox(gap: seq<Line>, i: nat)
    requires i <= |gap|
  {
    if i == 0 then false else InBox(gap, i - 1) != gap[i - 1].Rule?
  }

  predicate IsTitle(gap: seq<Line>, i: nat)
    requires i < |gap|
  {
    gap[i].Heading? || (gap[i].Comment? && InBox(gap, i))
  }

  function TitleAt(gap: seq<Line>, i: nat): string
    requires i < |gap| && IsTitle(gap, i)
  {
    if gap[i].Heading? then gap[i].title else gap[i].boxTitle
  }

  /** A line that drops the comment collected so far. */
  predicate Resets(gap: seq<Line>, i: nat)
    requires i < |gap|
  {
    gap[i].Rule? || gap[i].Code? || IsTitle(gap, i)
  }

  /** All titles of a gap, in order. */
  function Titles(gap: seq<Line>): seq<string> {
    TitlesTo(gap, |gap|)
  }

  function TitlesTo(gap: seq<Line>, n: nat): seq<string>
    requires n <= |gap|
  {
    if n == 0 then []
    else TitlesTo(gap, n - 1) + if IsTitle(gap, n - 1) then [TitleAt(gap, n - 1)] else []
  }

  /** One past the last resetting line among the first `n`. */
  function Start(gap: seq<Line>, n: nat): (k: nat)
    requires n <= |gap|
    ensures k <= n
    ensures forall i :: k <= i < n ==> !Resets(gap, i)
    ensures k > 0 ==> Resets(gap, k - 1)
  {
    if n == 0 then 0 else if Resets(gap, n - 1) then n else Start(gap, n - 1)
  }

  function CommentTexts(lines: seq<Line>): seq<string> {
    if lines == [] then []
    else CommentTexts(lines[..|lines| - 1]) + if lines[|lines| - 1].Comment? then [lines[|lines| - 1].text] else []
  }

  function LastOr(titles: seq<string>, default: string): string {
    if titles == [] then default else titles[|titles| - 1]
  }

  /**
   The scanner's carried state, read off the gap: the last title there is, the comment lines
   after the last resetting line, and whether a box is open.
   */
  lemma ScanGapMeaning(current: string, gap: seq<Line>)
    ensures var s := ScanGap(current, gap);
            && s.current == LastOr(Titles(gap), current)
            && s.block == CommentTexts(gap[Start(gap, |gap|)..])
            && s.boxed == InBox(gap, |gap|)
  {
    ScanToTitle(current, gap, |gap|);
    ScanToBlock(current, gap, |gap|);
    assert gap[Start(gap, |gap|)..|gap|] == gap[Start(gap, |gap|)..];
  }

  lemma {:induction false} ScanToTitle(current: string, gap: seq<Line>, n: nat)
    requires n <= |gap|
    ensures ScanTo(current, gap, n).current == LastOr(TitlesTo(gap, n), current)
    ensures ScanTo(current, gap, n).boxed == InBox(gap, n)
  {
    if n > 0 {
      ScanToTitle(current, gap, n - 1);
      TurnMeaning(ScanTo(current, gap, n - 1), gap, n - 1);
      LastOrAppend(TitlesTo(gap, n - 1), if IsTitle(gap, n - 1) then [TitleAt(gap, n - 1)] else [], current);
    }
  }

  lemma {:induction false} ScanToBlock(current: string, gap: seq<Line>, n: nat)
    requires n <= |gap|
    ensures ScanTo(current, gap, n).block == CommentTexts(gap[Start(gap, n)..n])
  {
    if n > 0 {
      ScanToBlock(current, gap, n - 1);
      ScanToTitle(current, gap, n - 1);
      TurnMeaning(ScanTo(current, gap, n - 1), gap, n - 1);
      TailTexts(gap, n - 1, Start(gap, n - 1));
    }
  }

  lemma LastOrAppend(titles: seq<string>, more: seq<string>, default: string)
    ensures LastOr(titles + more, default) == if more == [] then LastOr(titles, default) else more[|more| - 1]
  {
    assert titles + [] == titles;
  }

  lemma TurnMeaning(s: Scan, gap: seq<Line>, n: nat)
    requires n < |gap| && s.boxed == InBox(gap, n)
    ensures var t := Turn(s, gap[n]);
            && t.current == (if IsTitle(gap, n) then TitleAt(gap, n) else s.current)
            && t.block == (if Resets(gap, n) then [] else s.block + if gap[n].Comment? then [gap[n].text] else [])
            && t.boxed == InBox(gap, n + 1)
  {
  }

  /** The comment block, one line further: dropped by a resetting line, extended by a comment. */
  lemma TailTexts(gap: seq<Line>, n: nat, k: nat)
    requires n < |gap| && k == Start(gap, n)
    ensures CommentTexts(gap[Start(gap, n + 1)..n + 1]) ==
      if Resets(gap, n) then []
      else CommentTexts(gap[k..n]) + if gap[n].Comment? then [gap[n].text] else []
  {
    if !Resets(gap, n) {
      var tail := gap[k..n + 1];
      assert tail[|tail| - 1] == gap[n] && tail[..|tail| - 1] == gap[k..n];
    }
  }

  // ---------- scanning the class body ----------

  /** A class-body statement: its first and last line, counted from one, and the field it declares, if any. */
  datatype Node = Node(first: nat, last: nat, field: Option<string>)

  /** The lines scanned for one field: start and stop, counted from zero. */
  datatype Gap = Gap(start: nat, stop: int)

  /** `lines[start:stop]`. */
  function LinesIn(lines: seq<Line>, gap: Gap): seq<Line> {
    var stop := if gap.stop < |lines| then gap.stop else |lines|;
    if gap.start < stop then lines[gap.start..stop] else []
  }

  /** A field declaration and the gap scanned for it. */
  datatype Field = Field(name: string, gap: Gap)

  /** The fields among the statements from the `i`-th on; each gap runs from the end of the statement before. */
  function Fields(body: seq<Node>, i: nat, cursor: nat): seq<Field>
    requires i <= |body|
    decreases |body| - i
  {
    if i == |body| then []
    else if body[i].field.None? then Fields(body, i + 1, body[i].last)
    else [Field(body[i].field.value, Gap(cursor, body[i].first - 1))] + Fields(body, i + 1, body[i].last)
  }

  /** The first `n` words, the empty ones left out, with a space between. */
  function JoinTo(words: seq<string>, n: nat): string
    requires n <= |words|
  {
    if n == 0 then ""
    else
      var (before, last) := (JoinTo(words, n - 1), words[n - 1]);
      if last == "" then before else if before == "" then last else before + " " + last
  }

  function JoinWords(words: seq<string>): string {
    JoinTo(words, |words|)
  }

  /** What a gap says: its titles, and the comment lines after its last resetting line, joined. */
  datatype Reading = Reading(titles: Gap -> seq<string>, comment: Gap -> string)

  function TrailingComment(gap: seq<Line>): string {
    JoinWords(CommentTexts(gap[Start(gap, |gap|)..]))
  }

  function ReadingOf(lines: seq<Line>): Reading {
    Reading(gap => Titles(LinesIn(lines, gap)), gap => TrailingComment(LinesIn(lines, gap)))
  }

  /** The section in force after the first `n` fields' gaps. */
  function SectionAfter(r: Reading, fields: seq<Field>, n: nat, current: string): string
    requires n <= |fields|
  {
    if n == 0 then current else LastOr(r.titles(fields[n - 1].gap), SectionAfter(r, fields, n - 1, current))
  }

  /** The two dictionaries after the first `n` fields: a field declared twice keeps its last entry. */
  function SectionsTo(r: Reading, fields: seq<Field>, n: nat, current: string): map<string, string>
    requires n <= |fields|
  {
    if n == 0 then map[]
    else SectionsTo(r, fields, n - 1, current)[fields[n - 1].name := SectionAfter(r, fields, n, current)]
  }

  function CommentsTo(r: Reading, fields: seq<Field>, n: nat): map<string, string>
    requires n <= |fields|
  {
    if n == 0 then map[] else CommentsTo(r, fields, n - 1)[fields[n - 1].name := r.comment(fields[n - 1].gap)]
  }

  // ---------- what the scan means ----------

  /** The last of the first `n` fields whose gap has a title. */
  function LastTitled(r: Reading, fields: seq<Field>, n: nat): (g: Option<nat>)
    requires n <= |fields|
    ensures g.Some? ==> g.value < n && r.titles(fields[g.value].gap) != []
    ensures forall h :: (if g.Some? then g.value + 1 else 0) <= h < n ==> r.titles(fields[h].gap) == []
  {
    if n == 0 then None else if r.titles(fields[n - 1].gap) != [] then Some(n - 1) else LastTitled(r, fields, n - 1)
  }

  predicate LastDeclared(fields: seq<Field>, k: nat)
    requires k < |fields|
  {
    forall h :: k < h < |fields| ==> fields[h].name != fields[k].name
  }

  /**
   The `k`-th field's entries: its section is the last title of the last gap up to its own that has
   one, or "General"; its comment is the trailing comment of its own gap.
   */
  predicate Explains(r: Reading, fields: seq<Field>, k: nat,
                     sections: map<string, string>, comments: map<string, string>)
    requires k < |fields|
  {
    var name, titled := fields[k].name, LastTitled(r, fields, k + 1);
    && name in sections && name in comments
    && comments[name] == r.comment(fields[k].gap)
    && sections[name] == if titled.None? then "General" else LastOr(r.titles(fields[titled.value].gap), "General")
  }

  method ScanLines(current: string, gap: seq<Line>) returns (s: Scan)
    ensures s == ScanGap(current, gap)
  {
    var title, block, boxed := current, [], false;
    for i := 0 to |gap|
      invariant Scan(title, block, boxed) == ScanTo(current, gap, i)
    {
      match gap[i] {
        case Rule => boxed := !boxed; block := [];
        case Heading(t) => title := t; block := [];
        case Comment(boxTitle, text) =>
          if boxed {
            title := boxTitle;
            block := [];
          } else {
            block := block + [text];
          }
        case Code => block := [];
        case Blank =>
      }
    }
    s := Scan(title, block, boxed);
  }

  /** One field: the section in force after its gap, and its comment. */
  method ScanField(lines: seq<Line>, gap: Gap, current: string) returns (section: string, comment: string)
    ensures section == LastOr(ReadingOf(lines).titles(gap), current)
    ensures comment == ReadingOf(lines).comment(gap)
  {
    var text := LinesIn(lines, gap);
    var s := ScanLines(current, text);
    ScanGapMeaning(current, text);
    section, comment := s.current, JoinWords(s.block);
  }

  /**
   Section and comment of every field are what the gaps, read without any carried state, say they
   are: see Explains for the entry of a field's last declaration. Nothing else has an entry.
   */
  method SourceSectionsAndComments(lines: seq<Line>, classLine: nat, body: seq<Node>)
    returns (sections: map<string, string>, comments: map<string, string>)
    ensures var fields := Fields(body, 0, classLine);
            && sections == SectionsTo(ReadingOf(lines), fields, |fields|, "General")
            && comments == CommentsTo(ReadingOf(lines), fields, |fields|)
    ensures var fields := Fields(body, 0, classLine);
            && (forall k: nat :: k < |fields| && LastDeclared(fields, k) ==>
                 Explains(ReadingOf(lines), fields, k, sections, comments))
            && sections.Keys == comments.Keys == set field <- fields :: field.name
  {
    sections, comments := map[], map[];
    var current, cursor := "General", classLine;
    ghost var r, fields, done := ReadingOf(lines), Fields(body, 0, classLine), 0;
    for i := 0 to |body|
      invariant done <= |fields| && fields[done..] == Fields(body, i, cursor)
      invariant current == SectionAfter(r, fields, done, "General")
      invariant sections == SectionsTo(r, fields, done, "General")
      invariant comments == CommentsTo(r, fields, done)
    {
      var node := body[i];
      if node.field.None? {
        cursor := node.last;
        continue;
      }
      var gap := Gap(cursor, node.first - 1);
      assert fields[done..][0] == Field(node.field.value, gap);
      assert fields[done + 1..] == fields[done..][1..];
      var comment;
      current, comment := ScanField(lines, gap, current);
      sections := sections[node.field.value := current];
      comments := comments[node.field.value := comment];
      done := done + 1;
      cursor := node.last;
    }
    AllExplained(r, fields);
  }

  lemma AllExplained(r: Reading, fields: seq<Field>)
    ensures var (sections, comments) := (SectionsTo(r, fields, |fields|, "General"), CommentsTo(r, fields, |fields|));
            && (forall k: nat :: k < |fields| && LastDeclared(fields, k) ==> Explains(r, fields, k, sections, comments))
            && sections.Keys == comments.Keys == set field <- fields :: field.name
  {
    var (sections, comments) := (SectionsTo(r, fields, |fields|, "General"), CommentsTo(r, fields, |fields|));
    forall k: nat | k < |fields| && LastDeclared(fields, k) ensures Explains(r, fields, k, sections, comments) {
      EntriesExplained(r, fields, k);
    }
    EntryNames(r, fields, |fields|, "General");
    assert fields[..|fields|] == fields;
  }

  lemma EntriesExplained(r: Reading, fields: seq<Field>, k: nat)
    requires k < |fields| && LastDeclared(fields, k)
    ensures Explains(r, fields, k, SectionsTo(r, fields, |fields|, "General"), CommentsTo(r, fields, |fields|))
  {
    EntryOfLastDeclaration(r, fields, |fields|, k, "General");
    var titled := LastTitled(r, fields, k + 1);
    if titled.Some? {
      SectionIsLastTitle(r, fields, k + 1, titled.value, "General");
    } else {
      SectionWithoutTitles(r, fields, k + 1, "General");
    }
  }

  lemma {:induction false} EntryNames(r: Reading, fields: seq<Field>, n: nat, current: string)
    requires n <= |fields|
    ensures SectionsTo(r, fields, n, current).Keys == set field <- fields[..n] :: field.name
    ensures CommentsTo(r, fields, n).Keys == set field <- fields[..n] :: field.name
  {
    if n > 0 {
      EntryNames(r, fields, n - 1, current);
      assert fields[..n] == fields[..n - 1] + [fields[n - 1]];
      assert (set field <- fields[..n] :: field.name)
          == (set field <- fields[..n - 1] :: field.name) + {fields[n - 1].name};
    }
  }

  /** The section is the last title of the last gap that has one ... */
  lemma {:induction false} SectionIsLastTitle(r: Reading, fields: seq<Field>, n: nat, k: nat, current: string)
    requires k < n <= |fields| && r.titles(fields[k].gap) != []
    requires forall h :: k < h < n ==> r.titles(fields[h].gap) == []
    ensures var titles := r.titles(fields[k].gap);
            SectionAfter(r, fields, n, current) == titles[|titles| - 1]
  {
    if k < n - 1 {
      SectionIsLastTitle(r, fields, n - 1, k, current);
    }
  }

  /** ... or the starting section when none has. */
  lemma {:induction false} SectionWithoutTitles(r: Reading, fields: seq<Field>, n: nat, current: string)
    requires n <= |fields| && forall h :: 0 <= h < n ==> r.titles(fields[h].gap) == []
    ensures SectionAfter(r, fields, n, current) == current
  {
    if n > 0 {
      SectionWithoutTitles(r, fields, n - 1, current);
    }
  }

  /** Every field has an entry, made at its last declaration: the section in force there and its own gap's comment. */
  lemma {:induction false} EntryOfLastDeclaration(r: Reading, fields: seq<Field>, n: nat, k: nat, current: string)
    requires k < n <= |fields| && forall h :: k < h < n ==> fields[h].name != fields[k].name
    ensures var (sections, comments) := (SectionsTo(r, fields, n, current), CommentsTo(r, fields, n));
            && fields[k].name in sections && sections[fields[k].name] == SectionAfter(r, fields, k + 1, current)
            && fields[k].name in comments && comments[fields[k].name] == r.comment(fields[k].gap)
  {
    if k < n - 1 {
      EntryOfLastDeclaration(r, fields, n - 1, k, current);
    }
  }

  // ---------- which lines are scanned ----------

  /** Line `t` is scanned for a gap exactly when it lies in it, and the lines keep their order. */
  lemma LinesInExactly(lines: seq<Line>, gap: Gap)
    ensures var scanned := LinesIn(lines, gap);
            && (forall t :: gap.start <= t < gap.stop && t < |lines| ==>
                 t - gap.start < |scanned| && scanned[t - gap.start] == lines[t])
            && (forall k :: 0 <= k < |scanned| ==>
                 gap.start + k < gap.stop && gap.start + k < |lines| && scanned[k] == lines[gap.start + k])
  {
  }

  /** How many fields the statements before the `j`-th declare. */
  function FieldsBefore(body: seq<Node>, i: nat, j: nat): nat
    requires i <= j <= |body|
    decreases j - i
  {
    if i == j then 0 else (if body[i].field.Some? then 1 else 0) + FieldsBefore(body, i + 1, j)
  }

  /** The last line before statement `j` that is not free text: that of the statement before, or the class line. */
  function LineBefore(body: seq<Node>, i: nat, cursor: nat, j: nat): nat
    requires i <= j < |body|
  {
    if j == i then cursor else body[j - 1].last
  }

  predicate DeclaredFrom(body: seq<Node>, j: nat, name: string) {
    exists k | j <= k < |body| :: body[k].field == Some(name)
  }

  /** The field of statement `j` is scanned from the statement before it, whatever that is, up to its own first line. */
  lemma {:induction false} FieldOfStatement(body: seq<Node>, i: nat, cursor: nat, j: nat)
    requires i <= j < |body| && body[j].field.Some?
    ensures var (fields, f) := (Fields(body, i, cursor), FieldsBefore(body, i, j));
            && f < |fields|
            && fields[f] == Field(body[j].field.value, Gap(LineBefore(body, i, cursor, j), body[j].first - 1))
            && forall h :: f < h < |fields| ==> DeclaredFrom(body, j + 1, fields[h].name)
    decreases |body| - i
  {
    var fields, later := Fields(body, i, cursor), Fields(body, i + 1, body[i].last);
    if i == j {
      FieldsStep(body, i, cursor, 0);
      FieldsAreDeclared(body, i + 1, body[i].last);
    } else {
      FieldOfStatement(body, i + 1, body[i].last, j);
      FieldsStep(body, i, cursor, FieldsBefore(body, i, j));
    }
    forall h | FieldsBefore(body, i, j) < h < |fields| ensures DeclaredFrom(body, j + 1, fields[h].name) {
      FieldsStep(body, i, cursor, h);
      assert fields[h] == later[if body[i].field.Some? then h - 1 else h];
    }
  }

  lemma {:induction false} FieldsAreDeclared(body: seq<Node>, i: nat, cursor: nat)
    requires i <= |body|
    ensures var fields := Fields(body, i, cursor);
            forall h :: 0 <= h < |fields| ==> DeclaredFrom(body, i, fields[h].name)
    decreases |body| - i
  {
    if i < |body| {
      FieldsAreDeclared(body, i + 1, body[i].last);
      var fields, later := Fields(body, i, cursor), Fields(body, i + 1, body[i].last);
      forall h | 0 <= h < |fields| ensures DeclaredFrom(body, i, fields[h].name) {
        if body[i].field.Some? && h == 0 {
          assert body[i].field == Some(fields[0].name);
        } else {
          FieldsStep(body, i, cursor, h);
          var g := if body[i].field.Some? then h - 1 else h;
          assert fields[h] == later[g];
        }
      }
    }
  }

  /** The dictionaries the scan of a class fills. */
  function ScannedSections(lines: seq<Line>, classLine: nat, body: seq<Node>): map<string, string> {
    var fields := Fields(body, 0, classLine);
    SectionsTo(ReadingOf(lines), fields, |fields|, "General")
  }

  function ScannedComments(lines: seq<Line>, classLine: nat, body: seq<Node>): map<string, string> {
    var fields := Fields(body, 0, classLine);
    CommentsTo(ReadingOf(lines), fields, |fields|)
  }

  /** Statement `j` is the last to declare its field, and `above` stands on the free line directly above it. */
  predicate StandsAbove(lines: seq<Line>, classLine: nat, body: seq<Node>, j: nat, above: Line) {
    && j < |body| && body[j].field.Some? && (forall k :: j < k < |body| ==> body[k].field != body[j].field)
    && LineBefore(body, 0, classLine, j) <= body[j].first - 2 < |lines| && lines[body[j].first - 2] == above
  }

  lemma GapAbove(lines: seq<Line>, classLine: nat, body: seq<Node>, j: nat, above: Line)
    requires StandsAbove(lines, classLine, body, j, above)
    ensures var (fields, k) := (Fields(body, 0, classLine), FieldsBefore(body, 0, j));
            && k < |fields| && LastDeclared(fields, k) && fields[k].name == body[j].field.value
            && var scanned := LinesIn(lines, fields[k].gap);
            scanned != [] && scanned[|scanned| - 1] == above
  {
    FieldOfStatement(body, 0, classLine, j);
    LinesInExactly(lines, Fields(body, 0, classLine)[FieldsBefore(body, 0, j)].gap);
  }

  /** A heading directly above a declaration is its section. */
  lemma HeadingAboveIsSection(lines: seq<Line>, classLine: nat, body: seq<Node>, j: nat, title: string)
    requires StandsAbove(lines, classLine, body, j, Heading(title))
    ensures var sections := ScannedSections(lines, classLine, body);
            body[j].field.value in sections && sections[body[j].field.value] == title
  {
    GapAbove(lines, classLine, body, j, Heading(title));
    var r, fields, k := ReadingOf(lines), Fields(body, 0, classLine), FieldsBefore(body, 0, j);
    var scanned := LinesIn(lines, fields[k].gap);
    assert IsTitle(scanned, |scanned| - 1);
    assert Titles(scanned) == TitlesTo(scanned, |scanned| - 1) + [title];
    assert r.titles(fields[k].gap) == Titles(scanned);
    EntryOfLastDeclaration(r, fields, |fields|, k, "General");
  }

  predicate EndsIn(comment: string, text: string) {
    |text| <= |comment| && comment[|comment| - |text|..] == text
  }

  /** Where a comment is read as free text, a comment directly above a declaration closes its comment. */
  lemma CommentAboveIsLast(lines: seq<Line>, classLine: nat, body: seq<Node>, j: nat, boxTitle: string, text: string)
    requires StandsAbove(lines, classLine, body, j, Comment(boxTitle, text))
    requires var scanned := LinesIn(lines, Gap(LineBefore(body, 0, classLine, j), body[j].first - 1));
             |scanned| > 0 && !InBox(scanned, |scanned| - 1)
    ensures var comments := ScannedComments(lines, classLine, body);
            && body[j].field.value in comments
            && EndsIn(comments[body[j].field.value], text)
            && (body[j].first - 2 == LineBefore(body, 0, classLine, j) ==> comments[body[j].field.value] == text)
  {
    GapAbove(lines, classLine, body, j, Comment(boxTitle, text));
    FieldOfStatement(body, 0, classLine, j);
    var fields, k := Fields(body, 0, classLine), FieldsBefore(body, 0, j);
    if body[j].first - 2 == LineBefore(body, 0, classLine, j) {
      OneLineGap(lines, fields[k].gap);
    }
    CommentEntry(lines, fields, k, boxTitle, text);
  }

  lemma OneLineGap(lines: seq<Line>, gap: Gap)
    requires gap.start + 1 == gap.stop
    ensures |LinesIn(lines, gap)| <= 1
  {
  }

  lemma CommentEntry(lines: seq<Line>, fields: seq<Field>, k: nat, boxTitle: string, text: string)
    requires k < |fields| && LastDeclared(fields, k)
    requires var scanned := LinesIn(lines, fields[k].gap);
             scanned != [] && scanned[|scanned| - 1] == Comment(boxTitle, text) && !InBox(scanned, |scanned| - 1)
    ensures var comments := CommentsTo(ReadingOf(lines), fields, |fields|);
            && fields[k].name in comments && EndsIn(comments[fields[k].name], text)
            && (|LinesIn(lines, fields[k].gap)| == 1 ==> comments[fields[k].name] == text)
  {
    CommentOfField(lines, fields, k);
    TrailingCommentEnds(LinesIn(lines, fields[k].gap), boxTitle, text);
  }

  lemma CommentOfField(lines: seq<Line>, fields: seq<Field>, k: nat)
    requires k < |fields| && LastDeclared(fields, k)
    ensures var comments := CommentsTo(ReadingOf(lines), fields, |fields|);
            fields[k].name in comments && comments[fields[k].name] == TrailingComment(LinesIn(lines, fields[k].gap))
  {
    EntryOfLastDeclaration(ReadingOf(lines), fields, |fields|, k, "General");
  }

  lemma TrailingCommentEnds(gap: seq<Line>, boxTitle: string, text: string)
    requires gap != [] && gap[|gap| - 1] == Comment(boxTitle, text) && !InBox(gap, |gap| - 1)
    ensures EndsIn(TrailingComment(gap), text)
    ensures |gap| == 1 ==> TrailingComment(gap) == text
  {
    var n := |gap| - 1;
    var before := CommentTexts(gap[Start(gap, n)..n]);
    TailTexts(gap, n, Start(gap, n));
    assert gap[Start(gap, n + 1)..n + 1] == gap[Start(gap, n + 1)..];
    assert TrailingComment(gap) == JoinWords(before + [text]);
    JoinWordsConcat(before, [text]);
    JoinOne(text);
    if n == 0 {
      assert [] + [text] == [text];
    }
  }

  lemma JoinOne(w: string)
    ensures JoinWords([]) == "" && JoinWords([w]) == w
  {
    assert JoinTo([w], 0) == "";
  }

  function Spaced(a: string, b: string): string {
    if a == "" then b else if b == "" then a else a + " " + b
  }

  lemma SpacedAssociates(a: string, b: string, c: string)
    ensures Spaced(Spaced(a, b), c) == Spaced(a, Spaced(b, c))
  {
    assert (a + " " + b) + " " + c == a + " " + (b + " " + c);
  }

  lemma JoinWordsSnoc(words: seq<string>, last: string)
    ensures JoinWords(words + [last]) == Spaced(JoinWords(words), last)
  {
    JoinToSame(words + [last], words, |words|);
  }

  /** Words are joined in order, one space between what is not empty. */
  lemma {:induction false} JoinWordsConcat(a: seq<string>, b: seq<string>)
    ensures JoinWords(a + b) ==
            if JoinWords(a) == "" then JoinWords(b)
            else if JoinWords(b) == "" then JoinWords(a)
            else JoinWords(a) + " " + JoinWords(b)
  {
    if b == [] {
      assert a + b == a;
    } else {
      var init, last := b[..|b| - 1], b[|b| - 1];
      JoinWordsConcat(a, init);
      assert a + b == (a + init) + [last] && b == init + [last];
      JoinWordsSnoc(a + init, last);
      JoinWordsSnoc(init, last);
      SpacedAssociates(JoinWords(a), JoinWords(init), last);
    }
  }

  lemma {:induction false} JoinToSame(a: seq<string>, b: seq<string>, n: nat)
    requires n <= |a| && n <= |b| && a[..n] == b[..n]
    ensures JoinTo(a, n) == JoinTo(b, n)
  {
    if n > 0 {
      assert a[n - 1] == a[..n][n - 1] == b[n - 1];
      assert a[..n - 1] == a[..n][..n - 1] == b[..n - 1];
      JoinToSame(a, b, n - 1);
    }
  }

  /** From the `i`-th on, the statements come in source order; two may share a line. */
  predicate InOrder(body: seq<Node>, i: nat, cursor: nat)
    requires i <= |body|
    decreases |body| - i
  {
    i == |body| || (cursor <= body[i].first <= body[i].last && InOrder(body, i + 1, body[i].last))
  }

  /** No line of the statement lies in the gap. */
  predicate Clear(gap: Gap, node: Node) {
    gap.stop <= node.first - 1 || node.last <= gap.start
  }

  lemma {:induction false} StartsAfter(body: seq<Node>, i: nat, cursor: nat)
    requires i <= |body| && InOrder(body, i, cursor)
    ensures forall j :: i <= j < |body| ==> cursor <= body[j].first
    ensures forall a :: 0 <= a < |Fields(body, i, cursor)| ==> cursor <= Fields(body, i, cursor)[a].gap.start
    decreases |body| - i
  {
    if i < |body| {
      StartsAfter(body, i + 1, body[i].last);
    }
  }

  /** Unfolding one statement: where the `a`-th field comes from. */
  lemma FieldsStep(body: seq<Node>, i: nat, cursor: nat, a: nat)
    requires i < |body| && a < |Fields(body, i, cursor)|
    ensures var later := Fields(body, i + 1, body[i].last);
            if body[i].field.None? then a < |later| && Fields(body, i, cursor)[a] == later[a]
            else if a == 0 then Fields(body, i, cursor)[a] == Field(body[i].field.value, Gap(cursor, body[i].first - 1))
            else a - 1 < |later| && Fields(body, i, cursor)[a] == later[a - 1]
  {
    var later := Fields(body, i + 1, body[i].last);
    assert Fields(body, i, cursor) == if body[i].field.None? then later else
      [Field(body[i].field.value, Gap(cursor, body[i].first - 1))] + later;
  }

  /** Scanned gaps come in order and do not overlap. */
  lemma {:induction false} GapsAreInOrder(body: seq<Node>, i: nat, cursor: nat, a: nat, b: nat)
    requires i <= |body| && InOrder(body, i, cursor) && a < b < |Fields(body, i, cursor)|
    ensures Fields(body, i, cursor)[a].gap.stop <= Fields(body, i, cursor)[b].gap.start
    decreases |body| - i
  {
    FieldsStep(body, i, cursor, a);
    FieldsStep(body, i, cursor, b);
    StartsAfter(body, i + 1, body[i].last);
    if body[i].field.None? {
      GapsAreInOrder(body, i + 1, body[i].last, a, b);
    } else if a > 0 {
      GapsAreInOrder(body, i + 1, body[i].last, a - 1, b - 1);
    }
  }

  /** A scanned gap holds no line of any statement. */
  lemma {:induction false} GapsAreClean(body: seq<Node>, i: nat, cursor: nat, a: nat, j: nat)
    requires i <= j < |body| && InOrder(body, i, cursor) && a < |Fields(body, i, cursor)|
    ensures Clear(Fields(body, i, cursor)[a].gap, body[j])
    decreases |body| - i
  {
    FieldsStep(body, i, cursor, a);
    StartsAfter(body, i + 1, body[i].last);
    if j > i && body[i].field.None? {
      GapsAreClean(body, i + 1, body[i].last, a, j);
    } else if j > i && a > 0 {
      GapsAreClean(body, i + 1, body[i].last, a - 1, j);
    }
  }
}
