/** The frame normaliser of the `bodyFrame` handler: turns one raw sensor
 *  frame into the body list of the wire format, adding colour-space pixel
 *  coordinates to every joint.
 */
module Frames {
  import opened Js

  /** The web client's resolution, into which depth coordinates are scaled. */
  const DepthWidth: int := 512
  const DepthHeight: int := 424

  /** A slot of an array or object that may hold a falsy value instead of
      the record it is meant to hold. */
  datatype Slot<J> = Absent(falsy: FalsyValue) | Present(item: J)

  /** A joint as the sensor library delivers it. `None` is `null` or
      `undefined`; `others` are its remaining properties (orientation and
      the like), which the wire format does not carry. */
  datatype RawJoint = RawJoint(
    depthX: Option<real>, depthY: Option<real>,
    cameraX: Value, cameraY: Value, cameraZ: Value,
    trackingState: Value,
    others: Entries<Value>)

  /** A joint as it is sent to clients. */
  datatype Joint = Joint(
    depthX: Option<real>, depthY: Option<real>,
    cameraX: Value, cameraY: Value, cameraZ: Value,
    trackingState: Value,
    colorX: real, colorY: real)

  /** A body as the sensor library delivers it. `joints` is `None` when the
      property is falsy; `others` are its remaining own properties. */
  datatype RawBody = RawBody(
    joints: Option<Entries<Slot<RawJoint>>>,
    leftHandState: Value, rightHandState: Value,
    tracked: Value, trackingId: Value,
    others: Entries<Value>)

  /** A body as it is sent to clients. */
  datatype Body = Body(
    joints: Entries<Slot<Joint>>,
    leftHandState: Value, rightHandState: Value,
    tracked: Value, trackingId: Value,
    others: Entries<Value>)

  /** The `bodies` property of a frame: an array, or anything else. */
  datatype BodyList = NotAnArray | BodyArray(items: seq<Slot<RawBody>>)

  /** The argument of the `bodyFrame` event: a falsy value or an object. */
  datatype RawFrame = FalsyFrame | FrameObject(bodies: BodyList)

  datatype Point = Point(x: real, y: real)

  function Scale(d: Option<real>, size: int): real {
    if d.Some? then d.value * size as real else 0.0
  }

  /** `c` is the pixel coordinate for the depth coordinate `d` on an axis of
      `size` pixels: 0 when `d` is null or undefined, `d * size` otherwise. */
  ghost predicate ScaledFrom(d: Option<real>, size: int, c: real) {
    && (d.None? ==> c == 0.0)
    && (d.Some? ==> c == d.value * size as real)
  }

  /** `mapJointToColor`: scales the normalised depth coordinates to pixels;
      a missing joint or coordinate gives 0. */
  function MapJointToColor(joint: Slot<RawJoint>): (p: Point)
    ensures joint.Absent? ==> p == Point(0.0, 0.0)
    ensures joint.Present? ==> ScaledFrom(joint.item.depthX, DepthWidth, p.x)
    ensures joint.Present? ==> ScaledFrom(joint.item.depthY, DepthHeight, p.y)
  {
    match joint
    case Absent(_) => Point(0.0, 0.0)
    case Present(j) => Point(Scale(j.depthX, DepthWidth), Scale(j.depthY, DepthHeight))
  }

  /** A normalised depth coordinate lands inside the client's canvas. */
  lemma ColorWithinCanvas(j: RawJoint)
    requires j.depthX.Some? && 0.0 <= j.depthX.value <= 1.0
    requires j.depthY.Some? && 0.0 <= j.depthY.value <= 1.0
    ensures 0.0 <= MapJointToColor(Present(j)).x <= DepthWidth as real
    ensures 0.0 <= MapJointToColor(Present(j)).y <= DepthHeight as real
  {
  }

  function NormalizeJoint(j: RawJoint): Joint {
    var p := MapJointToColor(Present(j));
    Joint(j.depthX, j.depthY, j.cameraX, j.cameraY, j.cameraZ, j.trackingState, p.x, p.y)
  }

  function NormalizeSlot(s: Slot<RawJoint>): Slot<Joint> {
    match s
    case Absent(v) => Absent(v)
    case Present(j) => Present(NormalizeJoint(j))
  }

  /** The `joints` object that the handler's loop builds for one body. */
  function NormalizeJoints(src: Entries<Slot<RawJoint>>): Entries<Slot<Joint>> {
    if src == [] then []
    else
      var (k, s) := src[|src| - 1];
      NormalizeJoints(src[..|src| - 1]) + [(k, NormalizeSlot(s))]
  }

  /** The sent joint repeats every field the handler copies from the source. */
  ghost predicate JointCopied(src: RawJoint, out: Joint) {
    && out.depthX == src.depthX && out.depthY == src.depthY
    && out.cameraX == src.cameraX && out.cameraY == src.cameraY && out.cameraZ == src.cameraZ
    && out.trackingState == src.trackingState
  }

  /** The pixel coordinates of a sent joint follow from its own depth
      coordinates and the fixed resolution. */
  ghost predicate ColorDerived(out: Joint) {
    && ScaledFrom(out.depthX, DepthWidth, out.colorX)
    && ScaledFrom(out.depthY, DepthHeight, out.colorY)
  }

  /** A falsy joint is stored unchanged; a present one is copied and
      given its colour coordinates. */
  ghost predicate SlotNormalized(src: Slot<RawJoint>, out: Slot<Joint>) {
    && (src.Absent? ==> out == Absent(src.falsy))
    && (src.Present? ==> out.Present? && JointCopied(src.item, out.item) && ColorDerived(out.item))
  }

  /** The joints of a sent body: the same keys in the same order, each slot
      normalised. */
  ghost predicate JointsNormalized(src: Entries<Slot<RawJoint>>, out: Entries<Slot<Joint>>) {
    && Keys(out) == Keys(src)
    && forall i :: 0 <= i < |src| ==> SlotNormalized(src[i].1, out[i].1)
  }

  lemma {:induction false} NormalizeJointsCorrect(src: Entries<Slot<RawJoint>>)
    ensures JointsNormalized(src, NormalizeJoints(src))
  {
    if src != [] {
      var init, last := src[..|src| - 1], src[|src| - 1];
      NormalizeJointsCorrect(init);
      var out := NormalizeJoints(src);
      assert out == NormalizeJoints(init) + [(last.0, NormalizeSlot(last.1))];
      forall i | 0 <= i < |src|
        ensures out[i].0 == src[i].0 && SlotNormalized(src[i].1, out[i].1)
      {
        if i < |init| {
          assert out[i] == NormalizeJoints(init)[i];
          assert src[i] == init[i];
          assert Keys(NormalizeJoints(init))[i] == Keys(init)[i];
        }
      }
      assert Keys(out) == Keys(src);
    }
  }

  /** The handler's `for (const jt of jointKeys)` loop, filling the fresh
      `joints` object of one body. */
  method FillJoints(src: Entries<Slot<RawJoint>>) returns (out: Entries<Slot<Joint>>)
    ensures out == NormalizeJoints(src)
    ensures JointsNormalized(src, out)
  {
    out := [];
    for i := 0 to |src|
      invariant out == NormalizeJoints(src[..i])
    {
      var (jt, j) := src[i];
      if j.Absent? {
        out := out + [(jt, Absent(j.falsy))];
      } else {
        var p := MapJointToColor(j);
        var nj := Joint(j.item.depthX, j.item.depthY, j.item.cameraX, j.item.cameraY,
                        j.item.cameraZ, j.item.trackingState, p.x, p.y);
        out := out + [(jt, Present(nj))];
      }
      assert src[..i + 1][..i] == src[..i];
    }
    assert src[..|src|] == src;
    NormalizeJointsCorrect(src);
  }

  function JointsOf(b: RawBody): Entries<Slot<RawJoint>> {
    if b.joints.Some? then b.joints.value else []
  }

  /** The fresh body built for one present source body. */
  function NormalizeBody(b: RawBody): Body {
    Body(NormalizeJoints(JointsOf(b)), b.leftHandState, b.rightHandState,
         b.tracked, b.trackingId, b.others)
  }

  /** A sent body keeps the source's other properties, copies its hand
      states, `tracked` and `trackingId`, and normalises its joints. */
  ghost predicate BodyNormalized(src: RawBody, out: Body) {
    && JointsNormalized(JointsOf(src), out.joints)
    && out.leftHandState == src.leftHandState && out.rightHandState == src.rightHandState
    && out.tracked == src.tracked && out.trackingId == src.trackingId
    && out.others == src.others
  }

  lemma NormalizeBodyCorrect(b: RawBody)
    ensures BodyNormalized(b, NormalizeBody(b))
  {
    NormalizeJointsCorrect(JointsOf(b));
  }

  /** `bodiesArray.map(...).filter(Boolean)`: falsy bodies are dropped, the
      others normalised in their original order. */
  function NormalizeBodies(items: seq<Slot<RawBody>>): (r: seq<Body>)
    ensures |r| <= |items|
  {
    if items == [] then []
    else
      match items[0]
      case Absent(_) => NormalizeBodies(items[1..])
      case Present(b) => [NormalizeBody(b)] + NormalizeBodies(items[1..])
  }

  /** Every present source body is sent. */
  lemma {:induction false} NormalizeBodiesKeepsPresent(items: seq<Slot<RawBody>>, b: RawBody)
    requires Present(b) in items
    ensures NormalizeBody(b) in NormalizeBodies(items)
  {
    assert items == [items[0]] + items[1..];
    if items[0] != Present(b) {
      NormalizeBodiesKeepsPresent(items[1..], b);
    }
  }

  /** Every sent body comes from a present source body. */
  lemma {:induction false} NormalizeBodiesSources(items: seq<Slot<RawBody>>, o: Body)
    requires o in NormalizeBodies(items)
    ensures exists b :: Present(b) in items && o == NormalizeBody(b)
  {
    assert items != [];
    assert items == [items[0]] + items[1..];
    if items[0].Present? && o == NormalizeBody(items[0].item) {
      assert Present(items[0].item) in items;
    } else {
      NormalizeBodiesSources(items[1..], o);
      var b :| Present(b) in items[1..] && o == NormalizeBody(b);
      assert Present(b) in items;
    }
  }

  /** Order preservation: normalising a concatenation normalises each part. */
  lemma {:induction false} NormalizeBodiesConcat(a: seq<Slot<RawBody>>, b: seq<Slot<RawBody>>)
    ensures NormalizeBodies(a + b) == NormalizeBodies(a) + NormalizeBodies(b)
  {
    if a != [] {
      assert (a + b)[0] == a[0];
      assert (a + b)[1..] == a[1..] + b;
      NormalizeBodiesConcat(a[1..], b);
    } else {
      assert a + b == b;
    }
  }

  /** No null padding: the output is as long as the input exactly when no
      body was falsy. */
  lemma {:induction false} NormalizeBodiesLength(items: seq<Slot<RawBody>>)
    ensures |NormalizeBodies(items)| == |items| <==> forall i :: 0 <= i < |items| ==> items[i].Present?
  {
    if items != [] {
      NormalizeBodiesLength(items[1..]);
      assert forall i :: 1 <= i < |items| ==> items[i] == items[1..][i - 1];
    }
  }

  /** `Array.isArray(bodyFrame && bodyFrame.bodies) ? bodyFrame.bodies : []`. */
  function BodiesArray(f: RawFrame): seq<Slot<RawBody>> {
    match f
    case FalsyFrame => []
    case FrameObject(NotAnArray) => []
    case FrameObject(BodyArray(items)) => items
  }

  /** The body list broadcast for one frame. */
  function NormalizeFrame(f: RawFrame): seq<Body> {
    var bodies := BodiesArray(f);
    if |bodies| == 0 then [] else NormalizeBodies(bodies)
  }

  /** A frame with no bodies array, or an empty one, still yields a body
      list: the empty one. */
  lemma EmptyFrameYieldsNoBodies(f: RawFrame)
    requires f.FalsyFrame? || f.bodies.NotAnArray? || f.bodies.items == []
    ensures NormalizeFrame(f) == []
  {
  }

  /** The body list is empty exactly when every body of the frame is falsy. */
  lemma NoBodiesIffAllFalsy(f: RawFrame)
    ensures NormalizeFrame(f) == [] <==> forall i :: 0 <= i < |BodiesArray(f)| ==> BodiesArray(f)[i].Absent?
  {
    var items := BodiesArray(f);
    if exists i :: 0 <= i < |items| && items[i].Present? {
      var i :| 0 <= i < |items| && items[i].Present?;
      NormalizeBodiesKeepsPresent(items, items[i].item);
    } else if NormalizeFrame(f) != [] {
      NormalizeBodiesSources(items, NormalizeFrame(f)[0]);
    }
  }
}
