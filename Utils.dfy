/** The client's stream-count helpers (client/src/classes/Utils.ts): the
    undefined-argument test, restriction checks on `PipeableType`, the
    downgrade to a restriction's maximum, and the colour of a stream type. */
module Utils {
  import opened Wrappers
  import opened NodeTypes

  /** A restriction on the stream counts a node input accepts. */
  datatype PipeableTypeRestriction = PipeableTypeRestriction(min: PipeableType, max: PipeableType)

  /** `propsUndefined(...props)`: some argument is `undefined` (`None` here). */
  function PropsUndefined<T>(props: seq<Option<T>>): (r: bool)
    ensures r <==> exists i :: 0 <= i < |props| && props[i].None?
  {
    if props == [] then false
    else if props[0].None? then true
    else
      assert forall i :: 0 < i < |props| ==> props[i] == props[1..][i - 1];
      PropsUndefined(props[1..])
  }

  /** `pipeableTypeEqual`. */
  predicate PipeableTypeEqual(t1: PipeableType, t2: PipeableType)
    ensures PipeableTypeEqual(t1, t2) <==> forall st :: OfType(t1, st) == OfType(t2, st)
    ensures PipeableTypeEqual(t1, t2) <==> t1 == t2
  {
    assert OfType(t1, Video) == t1.video && OfType(t1, Audio) == t1.audio && OfType(t1, Subtitles) == t1.subtitles;
    !(t1.video != t2.video || t1.audio != t2.audio || t1.subtitles != t2.subtitles)
  }

  /** Every count is within the restriction's bounds: what the doc comment of
      `pipeableTypeMatchesRestrictions` promises. */
  ghost predicate WithinBounds(t: PipeableType, r: PipeableTypeRestriction) {
    forall st :: OfType(r.min, st) <= OfType(t, st) <= OfType(r.max, st)
  }

  /** `pipeableTypeMeetsMinReq`. */
  predicate MeetsMinReq(t: PipeableType, r: PipeableTypeRestriction)
    ensures MeetsMinReq(t, r) <==> forall st :: OfType(t, st) >= OfType(r.min, st)
  {
    assert OfType(t, Video) == t.video && OfType(t, Audio) == t.audio && OfType(t, Subtitles) == t.subtitles;
    t.video >= r.min.video && t.audio >= r.min.audio && t.subtitles >= r.min.subtitles
  }

  /** `pipeableTypeAboveMaxReq`: the type has to be downgraded. */
  predicate AboveMaxReq(t: PipeableType, r: PipeableTypeRestriction)
    ensures AboveMaxReq(t, r) <==> exists st :: OfType(t, st) > OfType(r.max, st)
  {
    assert OfType(t, Video) == t.video && OfType(t, Audio) == t.audio && OfType(t, Subtitles) == t.subtitles;
    t.video > r.max.video || t.audio > r.max.audio || t.subtitles > r.max.subtitles
  }

  /** `pipeableTypeMatchesRestrictions` as written: its last test compares the
      video count with the subtitles minimum. */
  predicate MatchesRestrictionsAsWritten(t: PipeableType, r: PipeableTypeRestriction)
    ensures MatchesRestrictionsAsWritten(t, r) <==>
              !AboveMaxReq(t, r) && t.video >= r.min.video && t.audio >= r.min.audio && t.video >= r.min.subtitles
  {
    !(t.video > r.max.video || t.video < r.min.video
      || t.audio > r.max.audio || t.audio < r.min.audio
      || t.subtitles > r.max.subtitles || t.video < r.min.subtitles)
  }

  /** A type with too few subtitle streams passes the check as written. */
  lemma MatchesRestrictionsAsWrittenIgnoresSubtitlesMin()
    ensures var t := PipeableType(1, 0, 0);
            var r := PipeableTypeRestriction(PipeableType(0, 0, 1), PipeableType(1, 1, 1));
            MatchesRestrictionsAsWritten(t, r) && !WithinBounds(t, r)
  {
    var t := PipeableType(1, 0, 0);
    var r := PipeableTypeRestriction(PipeableType(0, 0, 1), PipeableType(1, 1, 1));
    assert OfType(t, Subtitles) < OfType(r.min, Subtitles);
  }

  /** `pipeableTypeMatchesRestrictions` with the subtitles count compared to
      the subtitles minimum. */
  predicate MatchesRestrictions(t: PipeableType, r: PipeableTypeRestriction)
    ensures MatchesRestrictions(t, r) <==> WithinBounds(t, r)
    ensures MatchesRestrictions(t, r) <==> MeetsMinReq(t, r) && !AboveMaxReq(t, r)
  {
    assert OfType(t, Video) == t.video && OfType(t, Audio) == t.audio && OfType(t, Subtitles) == t.subtitles;
    !(t.video > r.max.video || t.video < r.min.video
      || t.audio > r.max.audio || t.audio < r.min.audio
      || t.subtitles > r.max.subtitles || t.subtitles < r.min.subtitles)
  }

  /** `pipeableTypeDowngrade`: t itself when it matches the restriction,
      otherwise capped componentwise at the restriction's maximum. */
  function Downgrade(t: PipeableType, r: PipeableTypeRestriction): (d: PipeableType)
    ensures MatchesRestrictions(t, r) ==> d == t
    ensures !MatchesRestrictions(t, r) ==> d == Min(t, r.max)
    ensures forall st :: OfType(d, st) <= OfType(r.max, st) && OfType(d, st) <= OfType(t, st)
  {
    if MatchesRestrictions(t, r) then t else Min(t, r.max)
  }

  /** `pipeableTypeDowngrade` as written, on top of the check as written. */
  function DowngradeAsWritten(t: PipeableType, r: PipeableTypeRestriction): PipeableType {
    if MatchesRestrictionsAsWritten(t, r) then t else Min(t, r.max)
  }

  /** The faulty comparison never shows in the downgrade: whenever the two
      checks disagree the type is already below the maximum, so capping it
      returns it unchanged. */
  lemma DowngradeUnaffectedByMatchesBug(t: PipeableType, r: PipeableTypeRestriction)
    ensures DowngradeAsWritten(t, r) == Downgrade(t, r)
  {
    if MatchesRestrictionsAsWritten(t, r) != MatchesRestrictions(t, r) {
      assert !AboveMaxReq(t, r);
      assert Min(t, r.max) == t;
    }
  }

  /** The example of the doc comment at Utils.ts:37-39, for any minimum. */
  lemma DowngradeDocExample(min: PipeableType)
    ensures Downgrade(PipeableType(2, 2, 1), PipeableTypeRestriction(min, PipeableType(1, 2, 0))) == PipeableType(1, 2, 0)
  {
    assert AboveMaxReq(PipeableType(2, 2, 1), PipeableTypeRestriction(min, PipeableType(1, 2, 0)));
  }

  /** Downgrading twice is downgrading once. */
  lemma DowngradeIdempotent(t: PipeableType, r: PipeableTypeRestriction)
    ensures Downgrade(Downgrade(t, r), r) == Downgrade(t, r)
  {
    var d := Downgrade(t, r);
    if !MatchesRestrictions(t, r) && !MatchesRestrictions(d, r) {
      assert !AboveMaxReq(d, r);
      assert Min(d, r.max) == d;
    }
  }

  datatype Colour = Container | VideoColour | AudioColour | SubtitlesColour | Unknown

  /** `Utils.Colours`: TailwindCSS colour names. */
  function ColourName(c: Colour): string {
    match c
    case Container => "purple-500"
    case VideoColour => "blue-400"
    case AudioColour => "green-400"
    case SubtitlesColour => "yellow-400"
    case Unknown => "gray-300"
  }

  /** `getColour`: several video streams make a container, one a video; with
      no video, any audio makes it audio, and anything else is subtitles. */
  function GetColour(t: PipeableType): (c: Colour)
    ensures c == Container <==> t.video > 1
    ensures c == VideoColour <==> t.video == 1
    ensures c == AudioColour <==> t.video < 1 && t.audio > 0
    ensures c == SubtitlesColour <==> t.video < 1 && t.audio <= 0
    ensures c != Unknown
  {
    if t.video > 1 then Container
    else if t.video == 1 then VideoColour
    else if t.audio > 0 then AudioColour
    else SubtitlesColour
  }
}
