/**
 * The video gallery's state: an immutable list of video records, each with
 * its own playing and muted flags, updated by id. The media elements
 * themselves (play, pause, the element's own muted property) are not part
 * of this model.
 */
module Gallery {

  datatype Video = Video(
    id: int,
    src: string,
    thumbnail: string,
    duration: string,
    playing: bool,
    muted: bool,
    title: string)

  /** The list the gallery starts with. */
  const InitialVideos: seq<Video> := [
    Video(1, "/videos/video1.mp4", "/thumbnails/thumb1.jpg", "0:43", true, true, "Zepto"),
    Video(2, "/videos/video2.mp4", "/thumbnails/thumb2.jpg", "0:31", true, true, "I JUST MADE $65,000 SELLING SOMETHING"),
    Video(3, "/videos/video3.mp4", "/thumbnails/thumb3.jpg", "1:05", true, true, "RECENT REALIZATIONS FOR THE 50 YO ME"),
    Video(4, "/videos/video4.mp4", "/thumbnails/thumb4.jpg", "0:34", true, true, "WANT TO LOSE")
  ]

  /** The two per-video buttons. */
  datatype Toggle = PlayPause | Mute

  /** The record with one flag negated and every other field kept. */
  function Flip(v: Video, t: Toggle): (w: Video)
    ensures w.id == v.id && w.src == v.src && w.thumbnail == v.thumbnail
    ensures w.duration == v.duration && w.title == v.title
    ensures t == PlayPause ==> w.playing != v.playing && w.muted == v.muted
    ensures t == Mute ==> w.muted != v.muted && w.playing == v.playing
  {
    match t
    case PlayPause => v.(playing := !v.playing)
    case Mute => v.(muted := !v.muted)
  }

  /** Applies a toggle to every record whose id is `id`, copying the others, in order. */
  function ApplyToggle(vs: seq<Video>, id: int, t: Toggle): (ws: seq<Video>)
    ensures |ws| == |vs|
    ensures forall k :: 0 <= k < |vs| ==> ws[k] == (if vs[k].id == id then Flip(vs[k], t) else vs[k])
    decreases |vs|
  {
    if vs == [] then []
    else [if vs[0].id == id then Flip(vs[0], t) else vs[0]] + ApplyToggle(vs[1..], id, t)
  }

  function TogglePlayPause(vs: seq<Video>, id: int): (ws: seq<Video>)
    ensures |ws| == |vs|
    ensures forall k :: 0 <= k < |vs| ==> ws[k].id == vs[k].id && ws[k].muted == vs[k].muted
    ensures forall k :: 0 <= k < |vs| ==> (ws[k].playing != vs[k].playing <==> vs[k].id == id)
  {
    ApplyToggle(vs, id, PlayPause)
  }

  function ToggleMute(vs: seq<Video>, id: int): (ws: seq<Video>)
    ensures |ws| == |vs|
    ensures forall k :: 0 <= k < |vs| ==> ws[k].id == vs[k].id && ws[k].playing == vs[k].playing
    ensures forall k :: 0 <= k < |vs| ==> (ws[k].muted != vs[k].muted <==> vs[k].id == id)
  {
    ApplyToggle(vs, id, Mute)
  }

  function Ids(vs: seq<Video>): seq<int> {
    seq(|vs|, k requires 0 <= k < |vs| => vs[k].id)
  }

  /** The accessible name of a video's mute button. */
  function MuteLabel(v: Video): (name: string)
    ensures name == "Unmute video" <==> v.muted
    ensures name == "Mute video" <==> !v.muted
  {
    if v.muted then "Unmute video" else "Mute video"
  }

  /** Four videos with ids 1 to 4, all playing and muted at mount. */
  lemma InitialState()
    ensures |InitialVideos| == 4
    ensures Ids(InitialVideos) == [1, 2, 3, 4]
    ensures forall k :: 0 <= k < |InitialVideos| ==> InitialVideos[k].playing && InitialVideos[k].muted
  {
  }

  /** The same toggle twice restores the list. */
  lemma ToggleTwice(vs: seq<Video>, id: int, t: Toggle)
    ensures ApplyToggle(ApplyToggle(vs, id, t), id, t) == vs
  {
    var ws := ApplyToggle(ApplyToggle(vs, id, t), id, t);
    assert forall k :: 0 <= k < |vs| ==> ws[k] == vs[k];
  }

  /** An id no record carries leaves the list unchanged. */
  lemma AbsentIdNoOp(vs: seq<Video>, id: int, t: Toggle)
    requires forall k :: 0 <= k < |vs| ==> vs[k].id != id
    ensures ApplyToggle(vs, id, t) == vs
  {
    var ws := ApplyToggle(vs, id, t);
    assert forall k :: 0 <= k < |vs| ==> ws[k] == vs[k];
  }

  /** Toggles keep the order of ids. */
  lemma TogglePreservesIds(vs: seq<Video>, id: int, t: Toggle)
    ensures Ids(ApplyToggle(vs, id, t)) == Ids(vs)
  {
  }

  /** Toggles of any two videos, of either kind, can be applied in either order. */
  lemma TogglesCommute(vs: seq<Video>, a: int, s: Toggle, b: int, t: Toggle)
    ensures ApplyToggle(ApplyToggle(vs, a, s), b, t) == ApplyToggle(ApplyToggle(vs, b, t), a, s)
  {
    var l := ApplyToggle(ApplyToggle(vs, a, s), b, t);
    var r := ApplyToggle(ApplyToggle(vs, b, t), a, s);
    forall k | 0 <= k < |vs| ensures l[k] == r[k] {
      FlipsCommute(vs[k], s, t);
    }
  }

  lemma FlipsCommute(v: Video, s: Toggle, t: Toggle)
    ensures Flip(Flip(v, s), t) == Flip(Flip(v, t), s)
  {
  }

  /** In the gallery as mounted, unmuting video 2 affects it alone. */
  lemma UnmuteSecond()
    ensures MuteLabel(ToggleMute(InitialVideos, 2)[1]) == "Mute video"
    ensures forall k :: 0 <= k < 4 && k != 1 ==> MuteLabel(ToggleMute(InitialVideos, 2)[k]) == "Unmute video"
  {
  }
}
