/**
The stack of open inline elements. Each frame remembers only the style bits it
turned on and, for a link, the one it covers; closing one, however the tags
were crossed, brings back what was in force before it.
*/
module InlineStack {
  import opened Wrappers
  import opened DocumentTypes
  import opened RunList

  /** The bits the open frames turned on. */
  function AddedBits(frames: seq<InlineFrame>): Style {
    if frames == [] then PLAIN else AddedBits(frames[..|frames| - 1]).With(frames[|frames| - 1].added)
  }

  /** The style and link in force before a frame was pushed. */
  datatype Before = Before(style: Style, link: Option<nat>)

  /** Each frame turned on only bits that were off, and still knows what was in force before it; its
      link is among the first `links`. */
  ghost predicate Stacked(frames: seq<InlineFrame>, saved: seq<Before>, links: nat) {
    && |saved| == |frames|
    && (frames != [] ==>
          var init, last := frames[..|frames| - 1], frames[|frames| - 1];
          && !last.added.Meets(AddedBits(init)) && Known(last.previousLink, links)
          && saved[|init|] == Before(AddedBits(init), last.previousLink) && Stacked(init, saved[..|init|], links))
  }

  lemma {:induction false} StackedBelow(frames: seq<InlineFrame>, saved: seq<Before>, links: nat, i: nat)
    requires Stacked(frames, saved, links) && i < |frames|
    ensures saved[i] == Before(AddedBits(frames[..i]), frames[i].previousLink)
            && Stacked(frames[..i], saved[..i], links)
    ensures AddedBits(frames[..i + 1]).Without(frames[i].added) == AddedBits(frames[..i])
            && Known(frames[i].previousLink, links)
  {
    var init := frames[..|frames| - 1];
    if i < |init| {
      StackedBelow(init, saved[..|init|], links, i);
      assert init[..i] == frames[..i] && init[..i + 1] == frames[..i + 1] && saved[..|init|][..i] == saved[..i];
    } else {
      assert frames[..i + 1] == frames;
    }
  }

  lemma {:induction false} StackedStill(frames: seq<InlineFrame>, saved: seq<Before>, links: nat, more: nat)
    requires Stacked(frames, saved, links) && links <= more
    ensures Stacked(frames, saved, more)
  {
    if frames != [] {
      StackedStill(frames[..|frames| - 1], saved[..|frames| - 1], links, more);
    }
  }

  /** Pushing a frame adds its bits, and changes no other frame's account. */
  lemma PushFrame(frames: seq<InlineFrame>, saved: seq<Before>, links: nat, frame: InlineFrame,
                  more: seq<InlineFrame>, moreSaved: seq<Before>)
    requires Stacked(frames, saved, links) && !frame.added.Meets(AddedBits(frames)) && Known(frame.previousLink, links)
    requires Appended(frames, more, frame) && Appended(saved, moreSaved, Before(AddedBits(frames), frame.previousLink))
    ensures AddedBits(more) == AddedBits(frames).With(frame.added) && Stacked(more, moreSaved, links)
  {
  }

  // --- links --------------------------------------------------------------------

  /** The link that is left once the frames from `i` up are closed, the innermost first. */
  function LinkBelow(frames: seq<InlineFrame>, link: Option<nat>, i: nat): Option<nat> {
    if |frames| <= i then link
    else
      var last := frames[|frames| - 1];
      LinkBelow(frames[..|frames| - 1], if last.setsLink then last.previousLink else link, i)
  }

  /** How many frames there are up to the topmost that sets a link. */
  function TopLink(frames: seq<InlineFrame>): (count: nat)
    ensures count <= |frames|
  {
    if frames == [] then 0
    else if frames[|frames| - 1].setsLink then |frames|
    else TopLink(frames[..|frames| - 1])
  }

  /** The frames that a link set without a frame of its own spoils: those that do not undo it. */
  function Exposed(frames: seq<InlineFrame>): (exposed: set<nat>)
    ensures forall i :: i in exposed <==> TopLink(frames) <= i < |frames|
  {
    if frames == [] || frames[|frames| - 1].setsLink then {} else Exposed(frames[..|frames| - 1]) + {|frames| - 1}
  }

  /** Of these frames, those under the first `k`. */
  function Under(frames: set<nat>, k: nat): set<nat> {
    set i | i in frames && i < k
  }

  /** Closing a frame brings back the link from before it was pushed, if and only if it is not spoiled;
      closing them all leaves no link, if and only if none was set adrift. */
  ghost predicate Accounted(frames: seq<InlineFrame>, saved: seq<Before>, spoiled: set<nat>, adrift: bool,
                            link: Option<nat>)
    requires |saved| == |frames|
  {
    && (forall i :: i in spoiled ==> i < |frames|)
    && (forall i :: 0 <= i < |frames| ==> (LinkBelow(frames, link, i) == saved[i].link <==> i !in spoiled))
    && (LinkBelow(frames, link, 0) == None <==> !adrift)
  }

  /** No frame covers any but the first `links` links. */
  ghost predicate SavedFirst(saved: seq<Before>, links: nat) {
    forall i :: 0 <= i < |saved| ==> Known(saved[i].link, links)
  }

  lemma {:induction false} StackedSaves(frames: seq<InlineFrame>, saved: seq<Before>, links: nat)
    requires Stacked(frames, saved, links)
    ensures SavedFirst(saved, links)
  {
    forall i | 0 <= i < |saved|
      ensures Known(saved[i].link, links)
    {
      StackedBelow(frames, saved, links, i);
    }
  }

  /** Closing down to `k` and then to `i` is closing down to `i`. */
  lemma {:induction false} LinkBelowInSteps(frames: seq<InlineFrame>, link: Option<nat>, k: nat, i: nat)
    requires i <= k <= |frames|
    ensures LinkBelow(frames, link, i) == LinkBelow(frames[..k], LinkBelow(frames, link, k), i)
  {
    if k == |frames| {
      assert frames[..k] == frames;
    } else {
      var init, last := frames[..|frames| - 1], frames[|frames| - 1];
      LinkBelowInSteps(init, if last.setsLink then last.previousLink else link, k, i);
      assert init[..k] == frames[..k];
    }
  }

  /** Below the topmost link the link in force makes no difference; above it, it is what stays. */
  lemma {:induction false} LinkShowsAbove(frames: seq<InlineFrame>, link: Option<nat>, other: Option<nat>, i: nat)
    requires i <= |frames|
    ensures LinkBelow(frames, link, i) == if i < TopLink(frames) then LinkBelow(frames, other, i) else link
  {
    if i < |frames| && !frames[|frames| - 1].setsLink {
      LinkShowsAbove(frames[..|frames| - 1], link, other, i);
    }
  }

  /** A new frame is not spoiled, whether it is to set a link or not, and spoils no other. */
  lemma PushKeepsAccounts(frames: seq<InlineFrame>, saved: seq<Before>, spoiled: set<nat>, adrift: bool,
                          frame: InlineFrame, more: seq<InlineFrame>, moreSaved: seq<Before>)
    requires |saved| == |frames| && Accounted(frames, saved, spoiled, adrift, frame.previousLink)
    requires Appended(frames, more, frame) && Appended(saved, moreSaved, Before(AddedBits(frames), frame.previousLink))
    ensures Accounted(more, moreSaved, spoiled, adrift, frame.previousLink)
  {
    var link := frame.previousLink;
    assert |more| == |frames| + 1 && more[..|frames|] == frames && more[|more| - 1] == frame;
    forall i | 0 <= i < |frames|
      ensures LinkBelow(more, link, i) == LinkBelow(frames, link, i) && moreSaved[i] == saved[i]
    {
      assert moreSaved[..|saved|][i] == moreSaved[i];
    }
    assert LinkBelow(more, link, |frames|) == LinkBelow(frames, link, |frames|) == link;
  }

  /** A link that is new everywhere spoils exactly the frames that do not undo it. */
  lemma NewLinkSpoils(frames: seq<InlineFrame>, saved: seq<Before>, spoiled: set<nat>, adrift: bool, link: Option<nat>,
                      novel: nat)
    requires |saved| == |frames| && Accounted(frames, saved, spoiled, adrift, link)
    requires SavedFirst(saved, novel)
    ensures Accounted(frames, saved, spoiled + Exposed(frames), adrift || TopLink(frames) == 0, Some(novel))
  {
    forall i | 0 <= i <= |frames|
      ensures LinkBelow(frames, Some(novel), i) == if i < TopLink(frames) then LinkBelow(frames, link, i)
                else Some(novel)
    {
      LinkShowsAbove(frames, Some(novel), link, i);
    }
  }

  /** The frames that stay know what they knew. */
  lemma PopKeepsAccounts(frames: seq<InlineFrame>, saved: seq<Before>, spoiled: set<nat>, adrift: bool,
                         link: Option<nat>, k: nat)
    requires |saved| == |frames| && Accounted(frames, saved, spoiled, adrift, link) && k <= |frames|
    ensures Accounted(frames[..k], saved[..k], Under(spoiled, k), adrift, LinkBelow(frames, link, k))
  {
    forall i | 0 <= i <= k
      ensures LinkBelow(frames[..k], LinkBelow(frames, link, k), i) == LinkBelow(frames, link, i)
    {
      LinkBelowInSteps(frames, link, k, i);
    }
  }

  /** The innermost frame with this name, or the number of frames. */
  function Innermost(frames: seq<InlineFrame>, name: Name): (index: nat)
    ensures index <= |frames|
    ensures index < |frames| ==> frames[index].name == name
    ensures forall i :: (if index == |frames| then 0 else index + 1) <= i < |frames| ==> frames[i].name != name
  {
    if frames == [] then 0
    else
      var last := |frames| - 1;
      if frames[last].name == name then last
      else
        var index := Innermost(frames[..last], name);
        if index == last then |frames| else index
  }
}
