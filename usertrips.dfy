/**
 * The trip table of a user's day: how the page turns each cell of the
 * `trips_json` response into a table cell (its classes, text and mode
 * glyph), how a place label binds its slash to the shorter neighbouring
 * word, and which date the location hash selects.
 */
module UserTrips {
  import opened Common
  import Strings

  // ----- Words -------------------------------------------------------------------

  /** `s.split(" ")[0]`: the text up to the first space. */
  function FirstWord(s: string): string
  {
    Strings.Split(s, " ")[0]
  }

  /** `s.split(" ").slice(-1)[0]`: the text after the last space. */
  function LastWord(s: string): string
  {
    var words := Strings.Split(s, " ");
    words[|words| - 1]
  }

  /** `w` starts `s`, holds no space, and is all of `s` or is followed by a space. */
  predicate IsFirstWord(s: string, w: string)
  {
    && |w| <= |s| && s[..|w|] == w
    && (forall i :: 0 <= i < |w| ==> w[i] != ' ')
    && (w == s || s[|w|] == ' ')
  }

  lemma FirstWordIs(s: string)
    ensures IsFirstWord(s, FirstWord(s))
  {
    var w := FirstWord(s);
    Strings.SplitHead(s, " ");
    forall i | 0 <= i < |w| ensures w[i] != ' ' {
      Strings.OccursAtChar(w, ' ', i);
    }
    Strings.OccursAtChar(s, ' ', |w|);
  }

  lemma FirstWordUnique(s: string, w1: string, w2: string)
    requires IsFirstWord(s, w1) && IsFirstWord(s, w2)
    ensures w1 == w2
  {
    assert forall i :: 0 <= i < |w1| ==> s[i] == w1[i];
    assert forall i :: 0 <= i < |w2| ==> s[i] == w2[i];
  }

  /** The mode of an activity (`activity.split(" ")[0]`) is exactly its first word. */
  lemma FirstWordCharacterization(s: string, w: string)
    ensures FirstWord(s) == w <==> IsFirstWord(s, w)
  {
    FirstWordIs(s);
    if IsFirstWord(s, w) {
      FirstWordUnique(s, FirstWord(s), w);
    }
  }

  /** A prefix that ends at a space or at the end of the text has the text's first word. */
  lemma FirstWordOfPrefix(s: string, h: string)
    requires |h| <= |s| && s[..|h|] == h
    requires h == s || s[|h|] == ' '
    ensures FirstWord(h) == FirstWord(s)
  {
    var w := FirstWord(h);
    FirstWordIs(h);
    assert s[..|w|] == h[..|w|];
    if w != h {
      assert s[|w|] == h[|w|];
    }
    FirstWordCharacterization(s, w);
  }

  // ----- Place labels -----------------------------------------------------------

  const Slash: string := " / "

  /** The separator that keeps the slash with the shorter of the two words around it. */
  function SlashSeparator(before: string, after: string): (sep: string)
    ensures |sep| == |Slash|
  {
    if |LastWord(before)| < |FirstWord(after)| then "\U{A0}/ " else " /\U{A0}"
  }

  /**
   * A place label as the table shows it: its first ` / ` is replaced by a
   * separator whose non-breaking space binds the slash to the shorter word,
   * and the later pieces are joined back with ` / `.
   */
  function BindSlash(name: string): string
  {
    var names := Strings.Split(name, Slash);
    if |names| == 1 then names[0]
    else names[0] + SlashSeparator(names[0], names[1]) + Strings.Join(names[1..], Slash)
  }

  /** A label without ` / ` is shown unchanged. */
  lemma BindSlashUnchanged(name: string)
    requires !Strings.Occurs(name, Slash)
    ensures BindSlash(name) == name
  {
    Strings.SplitWhole(name, Slash);
  }

  /**
   * With its first ` / ` at `k`, a label is shown with only that separator
   * replaced, by the one the words on either side of it choose; the text
   * keeps its length.
   */
  lemma BindSlashFirst(name: string, k: nat)
    requires Strings.OccursAt(name, Slash, k)
    requires forall i: nat :: i < k ==> !Strings.OccursAt(name, Slash, i)
    ensures BindSlash(name) == name[..k] + SlashSeparator(name[..k], name[k + 3..]) + name[k + 3..]
    ensures |BindSlash(name)| == |name|
  {
    var before, after := name[..k], name[k + 3..];
    Strings.SplitFirst(name, Slash, k);
    var names := Strings.Split(name, Slash);
    var rest := Strings.Split(after, Slash);
    assert names[1..] == rest;
    Strings.JoinSplit(after, Slash);
    var h := rest[0];
    Strings.SplitHead(after, Slash);
    if h != after {
      assert after[|h|] == Slash[0];
    }
    FirstWordOfPrefix(after, h);
  }

  // ----- Modes and glyphs -------------------------------------------------------

  /** The modes the glyph switch lists. */
  const GlyphModes: set<string> := {"ON_BICYCLE", "WALKING", "ON_FOOT", "RUNNING", "IN_VEHICLE", "TRAIN", "SUBWAY", "TRAM", "FERRY", "BUS", "TILTING", "STILL", "UNKNOWN"}

  /** The glyph of a mode, rendered as text; there is no default case. */
  function Glyph(mode: string): Option<string>
  {
    match mode
    case "ON_BICYCLE" => Some("\U{1F6B4}\U{FE0E}")
    case "WALKING" => Some("\U{1F6B6}\U{FE0E}")
    case "ON_FOOT" => Some("\U{1F6B6}\U{FE0E}")
    case "RUNNING" => Some("\U{1F3C3}\U{FE0E}")
    case "IN_VEHICLE" => Some("\U{1F698}\U{FE0E}")
    case "TRAIN" => Some("\U{1F682}\U{FE0E}")
    case "SUBWAY" => Some("\U{1F687}\U{FE0E}")
    case "TRAM" => Some("\U{1F68B}\U{FE0E}")
    case "FERRY" => Some("\U{26F4}\U{FE0E}")
    case "BUS" => Some("\U{1F68D}\U{FE0E}")
    case "TILTING" => Some("/")
    case "STILL" => Some("\U{A0}")
    case "UNKNOWN" => Some("?")
    case _ => None
  }

  /**
   * Exactly the listed modes have a glyph; walking and on foot share one,
   * and any other two listed modes have different glyphs.
   */
  lemma GlyphProperties(mode: string, other: string)
    ensures Glyph(mode).Some? <==> mode in GlyphModes
    ensures Glyph("WALKING") == Glyph("ON_FOOT")
    ensures mode in GlyphModes && other in GlyphModes && mode != other && Glyph(mode) == Glyph(other) ==>
      {mode, other} == {"WALKING", "ON_FOOT"}
  {
  }

  // ----- Cells ----------------------------------------------------------------------

  /** The first element of a response cell: a pair (time or activity), a place label, or `false`. */
  datatype Payload = Pair(first: string, second: string) | Label(name: string) | NoLabel

  /** A response cell: its payload (`None` is `null`) and its column span. */
  datatype Column = Column(content: Option<Payload>, colspan: int)

  /** A response row: the class of its cells and the cells. */
  datatype ResponseRow = ResponseRow(classname: string, cells: seq<Column>)

  /** What a cell holds besides its text: nothing, an empty `div`, or a `div` with a glyph. */
  datatype Icon = NoIcon | EmptyDiv | GlyphDiv(glyph: Option<string>)

  /** A rendered table cell. */
  datatype Cell = Cell(classes: seq<string>, colspan: int, text: string, icon: Icon, tail: string)

  /** A rendered table row: the message of an empty day, or cells. */
  datatype TableRow = Message(text: string) | Cells(cells: seq<Cell>)

  /** jQuery's `addClass`: names already present and empty names are not added again. */
  function AddClasses(classes: seq<string>, names: seq<string>): (r: seq<string>)
    ensures forall c :: c in classes ==> c in r
    ensures forall c :: c in names && c != "" ==> c in r
    ensures forall c :: c in r ==> c in classes || c in names
    decreases |names|
  {
    if names == [] then classes
    else
      var c := names[0];
      AddClasses(if c == "" || c in classes then classes else classes + [c], names[1..])
  }

  /** The classes an alignment adds to a time cell. */
  function AlignClasses(align: string): seq<string>
  {
    match align
    case "start" => ["left"]
    case "both" => ["left", "both"]
    case "end" => ["right"]
    case _ => []
  }

  /** One response cell rendered for a row of class `classname`. */
  function RenderCell(classname: string, col: Column): Cell
  {
    var base := Cell(AddClasses([], [classname]), col.colspan, "", NoIcon, "");
    match col.content
    case None => base.(classes := AddClasses(base.classes, ["gap"]))
    case Some(p) =>
      if classname == "time" then
        if p.Pair? then base.(text := p.first, classes := AddClasses(base.classes, AlignClasses(p.second))) else base
      else if classname == "activity" then
        if p.Pair? then
          var mode := FirstWord(p.first);
          base.(text := p.first, classes := AddClasses(base.classes, [mode]), icon := GlyphDiv(Glyph(mode)), tail := p.second)
        else base
      else if classname == "place" then
        if p.NoLabel? then base.(classes := AddClasses(base.classes, ["move"]), icon := EmptyDiv)
        else if p.Label? then base.(text := BindSlash(p.name))
        else base
      else base
  }

  /** The cells of one response row. */
  function RenderRow(row: ResponseRow): seq<Cell>
  {
    seq(|row.cells|, j requires 0 <= j < |row.cells| => RenderCell(row.classname, row.cells[j]))
  }

  /**
   * Every cell carries its row's class and its column span; a `null` cell
   * is an empty gap; an activity cell shows the activity, is classed by its
   * mode and holds the mode's glyph; a place cell shows its label with the
   * slash bound, at the same length, and a `false` place is a "move" cell
   * holding an empty div and no text.
   */
  lemma RenderCellProperties(classname: string, col: Column)
    ensures var cell := RenderCell(classname, col);
      && (classname != "" ==> classname in cell.classes)
      && cell.colspan == col.colspan
      && (col.content.None? ==> "gap" in cell.classes && cell.text == "" && cell.icon == NoIcon)
      && (classname == "activity" && col.content.Some? && col.content.value.Pair? ==>
            var activity := col.content.value.first;
            && cell.text == activity && cell.tail == col.content.value.second
            && IsFirstWord(activity, FirstWord(activity))
            && (FirstWord(activity) != "" ==> FirstWord(activity) in cell.classes)
            && cell.icon == GlyphDiv(Glyph(FirstWord(activity))))
      && (classname == "place" && col.content.Some? && col.content.value.Label? ==>
            cell.text == BindSlash(col.content.value.name) && |cell.text| == |col.content.value.name|)
      && (classname == "place" && col.content.Some? && col.content.value.NoLabel? ==>
            "move" in cell.classes && cell.icon == EmptyDiv && cell.text == "")
  {
    if col.content.Some? && col.content.value.Pair? {
      FirstWordIs(col.content.value.first);
    }
    if col.content.Some? && col.content.value.Label? {
      BindSlashLength(col.content.value.name);
    }
  }

  /** Binding the slash never changes a label's length. */
  lemma BindSlashLength(name: string)
    ensures |BindSlash(name)| == |name|
  {
    if Strings.Occurs(name, Slash) {
      var k := FirstOccurrence(name, Slash, |name|);
      BindSlashFirst(name, k);
    } else {
      BindSlashUnchanged(name);
    }
  }

  /** The first occurrence of `sep` in `s` at or before `bound`, given that there is one. */
  lemma {:induction false} FirstOccurrence(s: string, sep: string, bound: nat) returns (k: nat)
    requires exists i: nat | i <= bound :: Strings.OccursAt(s, sep, i)
    ensures k <= bound && Strings.OccursAt(s, sep, k)
    ensures forall i: nat :: i < k ==> !Strings.OccursAt(s, sep, i)
    decreases bound
  {
    if bound > 0 && exists i: nat | i <= bound - 1 :: Strings.OccursAt(s, sep, i) {
      k := FirstOccurrence(s, sep, bound - 1);
    } else {
      k := bound;
    }
  }

  /**
   * The page's table: a single message row for a day without trips,
   * otherwise one row per response row, built cell by cell.
   */
  method RenderTrips(response: seq<ResponseRow>) returns (table: seq<TableRow>)
    ensures response == [] ==> table == [Message("No trips.")]
    ensures response != [] ==> |table| == |response|
    ensures response != [] ==> forall i :: 0 <= i < |response| ==> table[i] == Cells(RenderRow(response[i]))
  {
    table := [];
    if |response| == 0 {
      table := [Message("No trips.")];
    }
    var i := 0;
    while i < |response|
      invariant 0 <= i <= |response|
      invariant response == [] ==> table == [Message("No trips.")]
      invariant response != [] ==> |table| == i
      invariant response != [] ==> forall k :: 0 <= k < i ==> table[k] == Cells(RenderRow(response[k]))
    {
      var row := response[i];
      var cells: seq<Cell> := [];
      var j := 0;
      while j < |row.cells|
        invariant 0 <= j <= |row.cells|
        invariant cells == RenderRow(row)[..j]
      {
        cells := cells + [RenderCell(row.classname, row.cells[j])];
        j := j + 1;
      }
      assert cells == RenderRow(row);
      table := table + [Cells(cells)];
      i := i + 1;
    }
  }

  // ----- Date selection -------------------------------------------------------------

  /** `d` ends `hash`, holds no `#`, and is all of `hash` or follows a `#`. */
  predicate LastSegmentShape(hash: string, d: string)
  {
    && |d| <= |hash| && hash[|hash| - |d|..] == d
    && (forall i :: 0 <= i < |d| ==> d[i] != '#')
    && (d == hash || hash[|hash| - |d| - 1] == '#')
  }

  /** `d` is the non-empty text after the last `#` of `hash`. */
  predicate IsLastSegment(hash: string, d: string)
  {
    |d| > 0 && LastSegmentShape(hash, d)
  }

  /** The date the page shows: the text after the last `#` of the hash, or today when that is empty. */
  function DateFromHash(hash: string, today: string): string
  {
    var pieces := Strings.Split(hash, "#");
    var date := pieces[|pieces| - 1];
    if date == "" then today else date
  }

  /** The last piece of the hash split at `#` is the text after its last `#`. */
  lemma HashLastPiece(hash: string)
    ensures var pieces := Strings.Split(hash, "#"); LastSegmentShape(hash, pieces[|pieces| - 1])
  {
    var pieces := Strings.Split(hash, "#");
    var d := pieces[|pieces| - 1];
    Strings.SplitLast(hash, "#");
    Strings.SplitPiecesFree(hash, "#");
    forall i | 0 <= i < |d| ensures d[i] != '#' {
      Strings.OccursAtChar(d, '#', i);
    }
    if |pieces| > 1 {
      Strings.OccursAtChar(hash, '#', |hash| - |d| - 1);
    }
  }

  /** An empty hash or one ending in `#` selects today; any other hash selects its last segment. */
  lemma DateFromHashProperties(hash: string, today: string)
    ensures hash == [] || hash[|hash| - 1] == '#' ==> DateFromHash(hash, today) == today
    ensures !(hash == [] || hash[|hash| - 1] == '#') ==> IsLastSegment(hash, DateFromHash(hash, today))
  {
    var pieces := Strings.Split(hash, "#");
    var d := pieces[|pieces| - 1];
    HashLastPiece(hash);
    if |d| > 0 {
      assert hash[|hash| - 1] == d[|d| - 1];
    }
  }

  /** The hash of a direct link to a day selects that day. */
  lemma DateFromHashExample(today: string)
    ensures DateFromHash("#2016-01-25", today) == "2016-01-25"
  {
    DateFromHashProperties("#2016-01-25", today);
  }

}
