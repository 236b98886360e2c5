/** The viewport mapper of the bounding-box canvas: the letterbox fit of
    the image into the canvas and the mapping of pointer coordinates
    back into image space. */
module Viewport {
  import opened Wrappers
  import opened Geometry

  /** Image pixels to canvas pixels: canvas = image * scale + offset. */
  datatype Transform = Transform(scale: real, offsetX: real, offsetY: real)

  /** The transform the canvas starts with, before its first fit. */
  const InitialTransform := Transform(1.0, 0.0, 0.0)

  /** The canvas's bounding rectangle in CSS pixels. */
  datatype ClientRect = ClientRect(left: real, top: real, width: real, height: real)

  /** `containerW / containerH > imageW / imageH` evaluated as JavaScript
      does: a zero container height gives Infinity (greater than any ratio)
      when the width is positive, and NaN (never greater) when it is 0. */
  predicate ContainerIsWider(containerW: real, containerH: real, imageW: real, imageH: real): (wider: bool)
    requires containerH >= 0.0 && imageH > 0.0
    // agrees with the cross-multiplied comparison, which has no division
    ensures wider <==> containerW * imageH > imageW * containerH
  {
    if containerH == 0.0 then containerW > 0.0
    else containerW / containerH > imageW / imageH
  }

  /** Fit an imageW x imageH image into a containerW x containerH canvas:
      one uniform scale, centred on the axis it does not fill. A zero image
      dimension skips the recompute (None), leaving the old transform. */
  function Fit(containerW: real, containerH: real, imageW: real, imageH: real): (r: Option<Transform>)
    requires containerW >= 0.0 && containerH >= 0.0 && imageW >= 0.0 && imageH >= 0.0
    ensures r.None? <==> imageW == 0.0 || imageH == 0.0
    ensures r.Some? ==> r.value.scale >= 0.0
    ensures r.Some? && containerW > 0.0 && containerH > 0.0 ==> r.value.scale > 0.0
    // the container is relatively wider: fill the height, centre horizontally
    ensures r.Some? && containerW * imageH > imageW * containerH ==>
      && imageH * r.value.scale == containerH
      && r.value.offsetY == 0.0
      && r.value.offsetX == (containerW - imageW * r.value.scale) / 2.0
    // otherwise: fill the width, centre vertically
    ensures r.Some? && containerW * imageH <= imageW * containerH ==>
      && imageW * r.value.scale == containerW
      && r.value.offsetX == 0.0
      && r.value.offsetY == (containerH - imageH * r.value.scale) / 2.0
    // the fitted image lies wholly inside the container
    ensures r.Some? ==> r.value.offsetX >= 0.0 && r.value.offsetY >= 0.0
    ensures r.Some? ==> imageW * r.value.scale <= containerW && imageH * r.value.scale <= containerH
  {
    if imageW == 0.0 || imageH == 0.0 then None
    else if ContainerIsWider(containerW, containerH, imageW, imageH) then
      var s := containerH / imageH;
      WiderFitsWidth(containerW, containerH, imageW, imageH);
      Some(Transform(s, (containerW - imageW * s) / 2.0, 0.0))
    else
      var s := containerW / imageW;
      NarrowerFitsHeight(containerW, containerH, imageW, imageH);
      Some(Transform(s, 0.0, (containerH - imageH * s) / 2.0))
  }

  lemma WiderFitsWidth(containerW: real, containerH: real, imageW: real, imageH: real)
    requires containerW >= 0.0 && containerH >= 0.0 && imageW > 0.0 && imageH > 0.0
    requires ContainerIsWider(containerW, containerH, imageW, imageH)
    ensures imageH * (containerH / imageH) == containerH
    ensures imageW * (containerH / imageH) <= containerW
    ensures containerW * imageH > imageW * containerH
  {
  }

  lemma NarrowerFitsHeight(containerW: real, containerH: real, imageW: real, imageH: real)
    requires containerW >= 0.0 && containerH >= 0.0 && imageW > 0.0 && imageH > 0.0
    requires !ContainerIsWider(containerW, containerH, imageW, imageH)
    ensures imageW * (containerW / imageW) == containerW
    ensures imageH * (containerW / imageW) <= containerH
    ensures containerW * imageH <= imageW * containerH
  {
  }

  /** An image fitted into a canvas of its own size needs no scaling and
      no offset: the fit is the initial transform. */
  lemma UnitFit(w: real, h: real)
    requires w > 0.0 && h > 0.0
    ensures Fit(w, h, w, h) == Some(InitialTransform)
  {
  }

  /** Pointer position (client coordinates) to image space: into canvas
      pixels by the canvas-to-CSS size ratio, then minus the offset and
      divided by the scale. None where JavaScript would produce a
      non-finite number (a zero-sized rectangle or a zero scale). */
  function ToImageSpace(clientX: real, clientY: real, rect: ClientRect,
                        canvasW: real, canvasH: real, t: Transform): (p: Option<Point>)
    ensures p.Some? <==> rect.width != 0.0 && rect.height != 0.0 && t.scale != 0.0
    ensures p.Some? ==>
      && p.value.x * t.scale + t.offsetX == (clientX - rect.left) * (canvasW / rect.width)
      && p.value.y * t.scale + t.offsetY == (clientY - rect.top) * (canvasH / rect.height)
  {
    if rect.width == 0.0 || rect.height == 0.0 || t.scale == 0.0 then None
    else
      var scaleX := canvasW / rect.width;
      var scaleY := canvasH / rect.height;
      Some(Point(((clientX - rect.left) * scaleX - t.offsetX) / t.scale,
                 ((clientY - rect.top) * scaleY - t.offsetY) / t.scale))
  }

  /** Where the canvas shows image point `p`, in client coordinates: the
      drawing transform followed by the CSS stretch of the canvas. */
  function ToClient(p: Point, rect: ClientRect, canvasW: real, canvasH: real, t: Transform): (c: Point)
    requires canvasW != 0.0 && canvasH != 0.0
  {
    Point(rect.left + (p.x * t.scale + t.offsetX) * (rect.width / canvasW),
          rect.top + (p.y * t.scale + t.offsetY) * (rect.height / canvasH))
  }

  /** One axis of the mapping: stretch by w/c, then undo it by c/w. */
  lemma AxisRoundTrip(d: real, w: real, c: real)
    requires w != 0.0 && c != 0.0
    ensures d * (w / c) * (c / w) == d
    ensures d * (c / w) * (w / c) == d
  {
    assert (w / c) * (c / w) == 1.0;
  }

  /** Mapping a drawn image point back from the screen gives the point. */
  lemma {:induction false} ImageRoundTrip(p: Point, rect: ClientRect, canvasW: real, canvasH: real, t: Transform)
    requires rect.width != 0.0 && rect.height != 0.0 && canvasW != 0.0 && canvasH != 0.0 && t.scale != 0.0
    ensures ToImageSpace(ToClient(p, rect, canvasW, canvasH, t).x, ToClient(p, rect, canvasW, canvasH, t).y,
                         rect, canvasW, canvasH, t) == Some(p)
  {
    var c := ToClient(p, rect, canvasW, canvasH, t);
    AxisRoundTrip(p.x * t.scale + t.offsetX, rect.width, canvasW);
    AxisRoundTrip(p.y * t.scale + t.offsetY, rect.height, canvasH);
    assert (c.x - rect.left) * (canvasW / rect.width) == p.x * t.scale + t.offsetX;
    assert (c.y - rect.top) * (canvasH / rect.height) == p.y * t.scale + t.offsetY;
    var q := ToImageSpace(c.x, c.y, rect, canvasW, canvasH, t).value;
    CancelFactor(q.x, p.x, t.scale);
    CancelFactor(q.y, p.y, t.scale);
  }

  lemma CancelFactor(a: real, b: real, s: real)
    requires s != 0.0 && a * s == b * s
    ensures a == b
  {
  }

  /** Every pointer position is where the canvas shows its image point. */
  lemma {:induction false} ClientRoundTrip(clientX: real, clientY: real, rect: ClientRect, canvasW: real, canvasH: real, t: Transform)
    requires rect.width != 0.0 && rect.height != 0.0 && canvasW != 0.0 && canvasH != 0.0 && t.scale != 0.0
    ensures ToImageSpace(clientX, clientY, rect, canvasW, canvasH, t).Some?
    ensures ToClient(ToImageSpace(clientX, clientY, rect, canvasW, canvasH, t).value, rect, canvasW, canvasH, t)
            == Point(clientX, clientY)
  {
  }
}
