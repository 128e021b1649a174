// Model of the calibration-file reader of the AlloSphere per-projection
// renderer: `WarpBlendData::load_allosphere_calibration` turns the
// whitespace-separated tokens of `<path>/<hostname>.txt` into viewports.

module Calibration {
  import Options

  /**
   * The calibration fields of a `ProjectionViewport`. A numeric field is
   * held as the token it was read from; `None` is a field never assigned,
   * which in the source is left uninitialised. `filepath` is a string and
   * starts empty.
   */
  datatype Viewport = Viewport(
    id: string,
    width: Options.Option<string>,
    height: Options.Option<string>,
    b: Options.Option<string>,
    h: Options.Option<string>,
    l: Options.Option<string>,
    w: Options.Option<string>,
    active: Options.Option<string>,
    filepath: string)

  function NewViewport(): Viewport
  {
    Viewport("", Options.None, Options.None, Options.None, Options.None,
             Options.None, Options.None, Options.None, "")
  }

  /** The fields a tag can name. */
  datatype Field = Width | Height | B | H | L | W | Active | Filepath

  /** What a tag token means to the reader. */
  datatype TagKind = IdKeyword | ValueTag(field: Field) | Unrecognized

  /** The tag tests of the reader, in its order. */
  function Classify(tag: string): (k: TagKind)
    ensures k == IdKeyword <==> tag == "id"
  {
    if tag == "id" then IdKeyword
    else if tag == "width" then ValueTag(Width)
    else if tag == "height" then ValueTag(Height)
    else if tag == "b" then ValueTag(B)
    else if tag == "h" then ValueTag(H)
    else if tag == "l" then ValueTag(L)
    else if tag == "w" then ValueTag(W)
    else if tag == "active" then ValueTag(Active)
    else if tag == "filepath" then ValueTag(Filepath)
    else Unrecognized
  }

  /** The token that names each field. */
  function TagOf(f: Field): string
  {
    match f
    case Width => "width"
    case Height => "height"
    case B => "b"
    case H => "h"
    case L => "l"
    case W => "w"
    case Active => "active"
    case Filepath => "filepath"
  }

  lemma ClassifyTagOf(f: Field)
    ensures Classify(TagOf(f)) == ValueTag(f)
  {
  }

  /** Stores `value` in field `f`. */
  function SetField(vp: Viewport, f: Field, value: string): (r: Viewport)
    ensures r.id == vp.id
  {
    match f
    case Width => vp.(width := Options.Some(value))
    case Height => vp.(height := Options.Some(value))
    case B => vp.(b := Options.Some(value))
    case H => vp.(h := Options.Some(value))
    case L => vp.(l := Options.Some(value))
    case W => vp.(w := Options.Some(value))
    case Active => vp.(active := Options.Some(value))
    case Filepath => vp.(filepath := value)
  }

  /** Where the tag loop of one record stops: the viewport built, the tokens left, and whether an `id` keyword ended it. */
  datatype TagResult = TagResult(vp: Viewport, rest: seq<string>, gotNext: bool)

  /**
   * The inner `while (config >> tag)` loop. Each tag read first stores the
   * record's id; `id` ends the record; a value tag takes the next token; any
   * other tag is reported and skipped. A value tag at the end of the stream
   * reads nothing and the loop ends.
   */
  function TagLoop(vp: Viewport, id: string, tokens: seq<string>): (r: TagResult)
    ensures |r.rest| <= |tokens|
    ensures r.gotNext ==> |r.rest| < |tokens|
    ensures |tokens| > 0 ==> r.vp.id == id
    decreases |tokens|
  {
    if |tokens| == 0 then TagResult(vp, [], false)
    else
      var vp1 := vp.(id := id);
      match Classify(tokens[0])
      case IdKeyword => TagResult(vp1, tokens[1..], true)
      case ValueTag(f) =>
        if |tokens| >= 2 then TagLoop(SetField(vp1, f, tokens[1]), id, tokens[2..])
        else TagResult(vp1, [], false)
      case Unrecognized => TagLoop(vp1, id, tokens[1..])
  }

  /**
   * The `do { ... } while (got_next)` loop: read the record's id token (at
   * the end of the stream the previous id stays), run the tag loop, append
   * the viewport, and go on while an `id` keyword ended the record.
   */
  function Records(prevId: string, tokens: seq<string>): (r: seq<Viewport>)
    ensures |r| >= 1
    decreases |tokens|
  {
    var id := if |tokens| > 0 then tokens[0] else prevId;
    var afterId := if |tokens| > 0 then tokens[1..] else [];
    var t := TagLoop(NewViewport(), id, afterId);
    [t.vp] + (if t.gotNext then Records(id, t.rest) else [])
  }

  /** The viewports a calibration file yields; its first token is read and dropped. */
  function Parse(tokens: seq<string>): (r: seq<Viewport>)
    ensures |r| == 0 <==> |tokens| == 0
  {
    if |tokens| == 0 then [] else Records(tokens[0], tokens[1..])
  }

  /**
   * The first token is never looked at: as a fallback id it would only be
   * stamped by a tag, and an ended stream has none.
   */
  lemma ParseIgnoresHeader(h1: string, h2: string, t: seq<string>)
    ensures Parse([h1] + t) == Parse([h2] + t)
  {
    assert ([h1] + t)[1..] == t && ([h2] + t)[1..] == t;
    if |t| == 0 {
      assert TagLoop(NewViewport(), h1, t) == TagLoop(NewViewport(), h2, t);
    }
  }

  /** The reader state: the viewports list, to which loading appends. */
  class WarpBlendData {
    var viewports: seq<Viewport>

    constructor()
      ensures viewports == []
    {
      viewports := [];
    }

    /** `load_allosphere_calibration` over the tokens of the opened file. */
    method LoadCalibration(tokens: seq<string>)
      modifies this
      ensures viewports == old(viewports) + Parse(tokens)
    {
      if |tokens| == 0 {
        return;
      }
      var id := tokens[0];
      var i := 1;
      var more := true;
      while more
        invariant 1 <= i <= |tokens|
        invariant old(viewports) + Parse(tokens) ==
                  viewports + (if more then Records(id, tokens[i..]) else [])
        decreases (if more then 1 else 0) + |tokens| - i
      {
        ghost var rest := Records(id, tokens[i..]);
        var vp, next, nextId, gotNext := NextRecord(tokens, i, id);
        assert viewports + rest == (viewports + [vp]) + (if gotNext then Records(nextId, tokens[next..]) else []);
        viewports := viewports + [vp];
        i, id, more := next, nextId, gotNext;
      }
    }
  }

  /**
   * One pass of the `do { ... } while (got_next)` body from position `at`:
   * the id token (if any), then the tag loop.
   */
  method NextRecord(tokens: seq<string>, at: nat, prevId: string)
    returns (vp: Viewport, next: nat, id: string, gotNext: bool)
    requires at <= |tokens|
    ensures at <= next <= |tokens|
    ensures gotNext ==> at < next
    ensures Records(prevId, tokens[at..]) == [vp] + (if gotNext then Records(id, tokens[next..]) else [])
  {
    var i := at;
    id := prevId;
    if i < |tokens| {
      id := tokens[i];
      i := i + 1;
    }
    RecordsStep(prevId, tokens, at);
    assert (if at < |tokens| then tokens[at + 1..] else []) == tokens[i..];
    vp, next, gotNext := ReadRecord(tokens, i, id);
    if at == |tokens| {
      assert tokens[i..] == [];
    }
  }

  /** `Records` over the stream from position `at`, unfolded once. */
  lemma RecordsStep(prevId: string, tokens: seq<string>, at: nat)
    requires at <= |tokens|
    ensures var id := if at < |tokens| then tokens[at] else prevId;
            var t := TagLoop(NewViewport(), id, if at < |tokens| then tokens[at + 1..] else []);
            Records(prevId, tokens[at..]) == [t.vp] + (if t.gotNext then Records(id, t.rest) else [])
  {
    if at < |tokens| {
      assert tokens[at..][1..] == tokens[at + 1..];
    }
  }

  /** The tag loop of one record over the stream from position `start`. */
  method ReadRecord(tokens: seq<string>, start: nat, id: string) returns (vp: Viewport, i: nat, gotNext: bool)
    requires start <= |tokens|
    ensures start <= i <= |tokens|
    ensures TagLoop(NewViewport(), id, tokens[start..]) == TagResult(vp, tokens[i..], gotNext)
  {
    vp := NewViewport();
    i := start;
    gotNext := false;
    var stop := false;
    while !stop && i < |tokens|
      invariant start <= i <= |tokens|
      invariant !stop ==> TagLoop(NewViewport(), id, tokens[start..]) == TagLoop(vp, id, tokens[i..]) && !gotNext
      invariant stop ==> TagLoop(NewViewport(), id, tokens[start..]) == TagResult(vp, tokens[i..], gotNext)
      decreases |tokens| - i, if stop then 0 else 1
    {
      var tag := tokens[i];
      match Classify(tag) {
        case IdKeyword =>
          TagLoopAtId(vp, id, tokens, i);
          vp, i := vp.(id := id), i + 1;
          gotNext := true;
          stop := true;
        case ValueTag(f) =>
          if i + 1 < |tokens| {
            TagLoopAtValue(vp, id, tokens, i, f);
            vp, i := SetField(vp.(id := id), f, tokens[i + 1]), i + 2;
          } else {
            TagLoopAtLastValue(vp, id, tokens, i, f);
            vp, i := vp.(id := id), i + 1;
            stop := true;
          }
        case Unrecognized =>
          TagLoopAtOther(vp, id, tokens, i);
          vp, i := vp.(id := id), i + 1;
      }
    }
  }

  /** The tag loop from position `i` when the tag there is `id`. */
  lemma TagLoopAtId(vp: Viewport, id: string, tokens: seq<string>, i: nat)
    requires i < |tokens| && Classify(tokens[i]) == IdKeyword
    ensures TagLoop(vp, id, tokens[i..]) == TagResult(vp.(id := id), tokens[i + 1..], true)
  {
    assert tokens[i..][1..] == tokens[i + 1..];
  }

  /** The tag loop from position `i` when a value tag there is followed by its value. */
  lemma TagLoopAtValue(vp: Viewport, id: string, tokens: seq<string>, i: nat, f: Field)
    requires i + 1 < |tokens| && Classify(tokens[i]) == ValueTag(f)
    ensures TagLoop(vp, id, tokens[i..]) == TagLoop(SetField(vp.(id := id), f, tokens[i + 1]), id, tokens[i + 2..])
  {
    assert tokens[i..][2..] == tokens[i + 2..];
  }

  /** The tag loop from position `i` when a value tag is the last token. */
  lemma TagLoopAtLastValue(vp: Viewport, id: string, tokens: seq<string>, i: nat, f: Field)
    requires i + 1 == |tokens| && Classify(tokens[i]) == ValueTag(f)
    ensures TagLoop(vp, id, tokens[i..]) == TagResult(vp.(id := id), tokens[i + 1..], false)
  {
    assert tokens[i + 1..] == [];
  }

  /** The tag loop from position `i` when the tag there is not recognised. */
  lemma TagLoopAtOther(vp: Viewport, id: string, tokens: seq<string>, i: nat)
    requires i < |tokens| && Classify(tokens[i]) == Unrecognized
    ensures TagLoop(vp, id, tokens[i..]) == TagLoop(vp.(id := id), id, tokens[i + 1..])
  {
    assert tokens[i..][1..] == tokens[i + 1..];
  }

  // ---------------------------------------------------------------------------
  // Properties of the reader

  /** The tag loop ends on as many `id` keywords as it consumes: zero, or one. */
  lemma {:induction false} TagLoopIds(vp: Viewport, id: string, tokens: seq<string>)
    ensures var r := TagLoop(vp, id, tokens);
            multiset(tokens)["id"] >= multiset(r.rest)["id"] + (if r.gotNext then 1 else 0)
    decreases |tokens|
  {
    if |tokens| > 0 {
      IdCountSplit(tokens);
      var vp1 := vp.(id := id);
      match Classify(tokens[0])
      case IdKeyword =>
      case ValueTag(f) =>
        if |tokens| >= 2 {
          IdCountSplit(tokens[1..]);
          assert tokens[1..][1..] == tokens[2..];
          TagLoopIds(SetField(vp1, f, tokens[1]), id, tokens[2..]);
        }
      case Unrecognized =>
        TagLoopIds(vp1, id, tokens[1..]);
    }
  }

  /** The `id` tokens of a stream: its first token's plus the rest's. */
  lemma IdCountSplit(tokens: seq<string>)
    requires |tokens| > 0
    ensures multiset(tokens)["id"] == multiset(tokens[1..])["id"] + (if tokens[0] == "id" then 1 else 0)
  {
    assert tokens == [tokens[0]] + tokens[1..];
  }

  lemma {:induction false} RecordsCount(prevId: string, tokens: seq<string>)
    ensures |Records(prevId, tokens)| <= 1 + multiset(tokens)["id"]
    decreases |tokens|
  {
    var id := if |tokens| > 0 then tokens[0] else prevId;
    var afterId := if |tokens| > 0 then tokens[1..] else [];
    if |tokens| > 0 {
      assert tokens == [tokens[0]] + afterId;
    }
    assert multiset(afterId)["id"] <= multiset(tokens)["id"];
    var t := TagLoop(NewViewport(), id, afterId);
    TagLoopIds(NewViewport(), id, afterId);
    if t.gotNext {
      RecordsCount(id, t.rest);
    }
  }

  /** Every viewport after the first is opened by an `id` keyword token. */
  lemma ParseCount(tokens: seq<string>)
    requires |tokens| > 0
    ensures 1 <= |Parse(tokens)| <= 1 + multiset(tokens)["id"]
  {
    assert tokens == [tokens[0]] + tokens[1..];
    RecordsCount(tokens[0], tokens[1..]);
  }

  /** An unrecognised tag consumes only itself: the next token is read as a tag. */
  lemma UnknownTagSkipped(vp: Viewport, id: string, tag: string, rest: seq<string>)
    requires Classify(tag) == Unrecognized
    ensures TagLoop(vp, id, [tag] + rest) == TagLoop(vp.(id := id), id, rest)
  {
    assert ([tag] + rest)[1..] == rest;
  }

  /** A repeated value tag overwrites the value read before. */
  lemma RepeatedTagOverwrites(vp: Viewport, id: string, tag: string, v1: string, v2: string, rest: seq<string>)
    requires Classify(tag).ValueTag?
    ensures TagLoop(vp, id, [tag, v1, tag, v2] + rest) == TagLoop(vp, id, [tag, v2] + rest)
  {
    var f := Classify(tag).field;
    var long := [tag, v1, tag, v2] + rest;
    var short := [tag, v2] + rest;
    assert long[2..] == short;
    assert short[2..] == rest;
    var vp1 := SetField(vp.(id := id), f, v1);
    assert TagLoop(vp, id, long) == TagLoop(vp1, id, short);
    assert SetField(vp1.(id := id), f, v2) == SetField(vp.(id := id), f, v2);
  }

  /** The record's id is stored only if some tag token follows it. */
  lemma IdNeedsATag(prevId: string, id: string)
    ensures Records(prevId, [id]) == [NewViewport()]
  {
    assert [id][1..] == [];
  }

  // ---------------------------------------------------------------------------
  // Writing a calibration file

  function Pair(f: Field, value: Options.Option<string>): seq<string>
  {
    if value.Some? then [TagOf(f), value.value] else []
  }

  function FilepathValue(vp: Viewport): Options.Option<string>
  {
    if vp.filepath != "" then Options.Some(vp.filepath) else Options.None
  }

  /** The tag-value tokens of one record, in a fixed order, followed by `rest`. */
  function FieldsThen(vp: Viewport, rest: seq<string>): seq<string>
  {
    Pair(Width, vp.width) + (Pair(Height, vp.height) + (Pair(B, vp.b) + (Pair(H, vp.h) +
    (Pair(L, vp.l) + (Pair(W, vp.w) + (Pair(Active, vp.active) + (Pair(Filepath, FilepathValue(vp)) + rest)))))))
  }

  /** Whether a record writes any tag-value pair. */
  predicate HasField(vp: Viewport)
  {
    vp.width.Some? || vp.height.Some? || vp.b.Some? || vp.h.Some? || vp.l.Some? ||
    vp.w.Some? || vp.active.Some? || vp.filepath != ""
  }

  /** The records, each after the first opened by the `id` keyword. */
  function EncodeRecords(vps: seq<Viewport>): seq<string>
  {
    if |vps| == 0 then []
    else [vps[0].id] + FieldsThen(vps[0], if |vps| > 1 then ["id"] + EncodeRecords(vps[1..]) else [])
  }

  /** A calibration file: a header token the reader drops, then the records. */
  function Encode(header: string, vps: seq<Viewport>): seq<string>
  {
    [header] + EncodeRecords(vps)
  }

  /** Reading an optional pair: nothing when absent, the field when present. */
  lemma StepOptional(acc: Viewport, id: string, f: Field, value: Options.Option<string>, rest: seq<string>)
    ensures TagLoop(acc, id, Pair(f, value) + rest) == TagLoop(Apply(acc, id, f, value), id, rest)
  {
    if value.Some? {
      ClassifyTagOf(f);
      assert (Pair(f, value) + rest)[2..] == rest;
    } else {
      assert Pair(f, value) + rest == rest;
    }
  }

  /** Storing an optional value as the reader would. */
  function Apply(acc: Viewport, id: string, f: Field, value: Options.Option<string>): Viewport
  {
    if value.Some? then SetField(acc.(id := id), f, value.value) else acc
  }

  /** A fresh viewport after reading all of `vp`'s pairs. */
  function ApplyAll(vp: Viewport, id: string): Viewport
  {
    var a1 := Apply(NewViewport(), id, Width, vp.width);
    var a2 := Apply(a1, id, Height, vp.height);
    var a3 := Apply(a2, id, B, vp.b);
    var a4 := Apply(a3, id, H, vp.h);
    var a5 := Apply(a4, id, L, vp.l);
    var a6 := Apply(a5, id, W, vp.w);
    var a7 := Apply(a6, id, Active, vp.active);
    Apply(a7, id, Filepath, FilepathValue(vp))
  }

  /** Reading the pairs restores every field; the id is stored once any pair is read. */
  lemma ApplyAllFields(vp: Viewport, id: string)
    ensures ApplyAll(vp, id) == vp.(id := if HasField(vp) then id else "")
  {
    var a0 := NewViewport();
    var a4 := Apply(Apply(Apply(Apply(a0, id, Width, vp.width), id, Height, vp.height), id, B, vp.b), id, H, vp.h);
    ApplyFirstFour(vp, id);
    ApplyLastFour(a4, vp, id);
  }

  /** The first four pairs read onto a fresh viewport. */
  lemma ApplyFirstFour(vp: Viewport, id: string)
    ensures var a0 := NewViewport();
            var a1 := Apply(a0, id, Width, vp.width);
            var a2 := Apply(a1, id, Height, vp.height);
            var a3 := Apply(a2, id, B, vp.b);
            Apply(a3, id, H, vp.h) ==
              a0.(id := if vp.width.Some? || vp.height.Some? || vp.b.Some? || vp.h.Some? then id else "",
                  width := vp.width, height := vp.height, b := vp.b, h := vp.h)
  {
    var a0 := NewViewport();
    var a1 := Apply(a0, id, Width, vp.width);
    var a2 := Apply(a1, id, Height, vp.height);
    var a3 := Apply(a2, id, B, vp.b);
    ApplyEffect(a0, id, Width, vp.width);
    ApplyEffect(a1, id, Height, vp.height);
    ApplyEffect(a2, id, B, vp.b);
    ApplyEffect(a3, id, H, vp.h);
  }

  /** The last four pairs read onto a viewport that has none of those fields yet. */
  lemma ApplyLastFour(acc: Viewport, vp: Viewport, id: string)
    requires acc.l.None? && acc.w.None? && acc.active.None? && acc.filepath == ""
    ensures var a5 := Apply(acc, id, L, vp.l);
            var a6 := Apply(a5, id, W, vp.w);
            var a7 := Apply(a6, id, Active, vp.active);
            Apply(a7, id, Filepath, FilepathValue(vp)) ==
              acc.(id := if vp.l.Some? || vp.w.Some? || vp.active.Some? || vp.filepath != "" then id else acc.id,
                   l := vp.l, w := vp.w, active := vp.active, filepath := vp.filepath)
  {
    var a5 := Apply(acc, id, L, vp.l);
    var a6 := Apply(a5, id, W, vp.w);
    var a7 := Apply(a6, id, Active, vp.active);
    ApplyEffect(acc, id, L, vp.l);
    ApplyEffect(a5, id, W, vp.w);
    ApplyEffect(a6, id, Active, vp.active);
    ApplyEffect(a7, id, Filepath, FilepathValue(vp));
  }

  /** One stored value: its own field changes, the id is stored, the other fields stay. */
  lemma ApplyEffect(acc: Viewport, id: string, f: Field, v: Options.Option<string>)
    ensures var r := Apply(acc, id, f, v);
            r.id == (if v.Some? then id else acc.id) &&
            r.width == (if f == Width && v.Some? then v else acc.width) &&
            r.height == (if f == Height && v.Some? then v else acc.height) &&
            r.b == (if f == B && v.Some? then v else acc.b) &&
            r.h == (if f == H && v.Some? then v else acc.h) &&
            r.l == (if f == L && v.Some? then v else acc.l) &&
            r.w == (if f == W && v.Some? then v else acc.w) &&
            r.active == (if f == Active && v.Some? then v else acc.active) &&
            r.filepath == (if f == Filepath && v.Some? then v.value else acc.filepath)
  {
  }

  /** The pairs of `vp` followed by `rest` leave the tag loop where `rest` alone would, on `vp`'s fields. */
  lemma {:induction false} FieldsChain(vp: Viewport, id: string, rest: seq<string>)
    ensures TagLoop(NewViewport(), id, FieldsThen(vp, rest)) == TagLoop(ApplyAll(vp, id), id, rest)
  {
    var a1 := Apply(NewViewport(), id, Width, vp.width);
    var a2 := Apply(a1, id, Height, vp.height);
    var a3 := Apply(a2, id, B, vp.b);
    var a4 := Apply(a3, id, H, vp.h);
    var a5 := Apply(a4, id, L, vp.l);
    var a6 := Apply(a5, id, W, vp.w);
    var a7 := Apply(a6, id, Active, vp.active);
    var s8 := Pair(Filepath, FilepathValue(vp)) + rest;
    var s7 := Pair(Active, vp.active) + s8;
    var s6 := Pair(W, vp.w) + s7;
    var s5 := Pair(L, vp.l) + s6;
    var s4 := Pair(H, vp.h) + s5;
    var s3 := Pair(B, vp.b) + s4;
    var s2 := Pair(Height, vp.height) + s3;
    StepOptional(NewViewport(), id, Width, vp.width, s2);
    StepOptional(a1, id, Height, vp.height, s3);
    StepOptional(a2, id, B, vp.b, s4);
    StepOptional(a3, id, H, vp.h, s5);
    StepOptional(a4, id, L, vp.l, s6);
    StepOptional(a5, id, W, vp.w, s7);
    StepOptional(a6, id, Active, vp.active, s8);
    StepOptional(a7, id, Filepath, FilepathValue(vp), rest);
  }

  /** The id tag at the end of a record ends its tag loop. */
  lemma EndsAtId(vp: Viewport, id: string, more: seq<string>)
    ensures TagLoop(vp, id, ["id"] + more) == TagResult(vp.(id := id), more, true)
  {
    assert (["id"] + more)[1..] == more;
  }

  /** When the last record has a field (or no id), reading the records back gives them all. */
  lemma {:induction false} RecordsRoundTrip(prevId: string, vps: seq<Viewport>)
    requires |vps| > 0
    requires HasField(vps[|vps| - 1]) || vps[|vps| - 1].id == ""
    ensures Records(prevId, EncodeRecords(vps)) == vps
    decreases |vps|
  {
    FirstRecord(prevId, vps);
    if |vps| > 1 {
      assert vps[1..][|vps[1..]| - 1] == vps[|vps| - 1];
      RecordsRoundTrip(vps[0].id, vps[1..]);
      assert vps == [vps[0]] + vps[1..];
    } else {
      assert vps == [vps[0]];
    }
  }

  /** The first record of an encoding reads back as itself, and reading goes on exactly when more follow. */
  lemma FirstRecord(prevId: string, vps: seq<Viewport>)
    requires |vps| > 0
    requires |vps| > 1 || HasField(vps[0]) || vps[0].id == ""
    ensures Records(prevId, EncodeRecords(vps)) ==
            [vps[0]] + (if |vps| > 1 then Records(vps[0].id, EncodeRecords(vps[1..])) else [])
  {
    var vp := vps[0];
    var tail := if |vps| > 1 then ["id"] + EncodeRecords(vps[1..]) else [];
    assert EncodeRecords(vps) == [vp.id] + FieldsThen(vp, tail);
    RecordUnfold(prevId, vp, tail);
    if |vps| > 1 {
      MidRecord(vp, EncodeRecords(vps[1..]));
    } else {
      LastRecord(vp);
    }
  }

  /** The first record of an encoding: its id token, then its pairs read onto a fresh viewport. */
  lemma RecordUnfold(prevId: string, vp: Viewport, tail: seq<string>)
    ensures var t := TagLoop(ApplyAll(vp, vp.id), vp.id, tail);
            Records(prevId, [vp.id] + FieldsThen(vp, tail)) == [t.vp] + (if t.gotNext then Records(vp.id, t.rest) else [])
  {
    FieldsChain(vp, vp.id, tail);
    assert ([vp.id] + FieldsThen(vp, tail))[1..] == FieldsThen(vp, tail);
  }

  /** A record followed by the `id` keyword reads back as itself and hands on the rest. */
  lemma MidRecord(vp: Viewport, more: seq<string>)
    ensures TagLoop(ApplyAll(vp, vp.id), vp.id, ["id"] + more) == TagResult(vp, more, true)
  {
    ApplyAllFields(vp, vp.id);
    EndsAtId(ApplyAll(vp, vp.id), vp.id, more);
  }

  /** The last record reads back as itself when it has a field or no id. */
  lemma LastRecord(vp: Viewport)
    requires HasField(vp) || vp.id == ""
    ensures TagLoop(ApplyAll(vp, vp.id), vp.id, []) == TagResult(vp, [], false)
  {
    ApplyAllFields(vp, vp.id);
  }

  /**
   * Reading back a written calibration file gives the viewports written, in
   * order, provided the last record has a field or an empty id.
   */
  lemma ParseEncode(header: string, vps: seq<Viewport>)
    requires |vps| > 0
    requires HasField(vps[|vps| - 1]) || vps[|vps| - 1].id == ""
    ensures Parse(Encode(header, vps)) == vps
  {
    assert Encode(header, vps)[1..] == EncodeRecords(vps);
    RecordsRoundTrip(header, vps);
  }
}
