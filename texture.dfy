// Model of the parameter bookkeeping of al::Texture: the default state, the
// change-flag pattern behind the filter and wrap setters, and the region
// size rule of copyFrameBuffer. The OpenGL calls themselves are not modelled.

module Textures {

  // OpenGL enumerants used by the defaults.
  const GL_TEXTURE_2D: int := 0x0DE1
  const GL_RGBA8: int := 0x8058
  const GL_RGBA: int := 0x1908
  const GL_UNSIGNED_BYTE: int := 0x1401
  const GL_CLAMP_TO_EDGE: int := 0x812F
  const GL_NEAREST: int := 0x2600

  /** A parameter's value together with its "changed since last upload" flag. */
  datatype Tracked = Tracked(value: int, flag: bool)

  /**
   * `update_param(v, var, flag)`: the variable always ends up holding `v`,
   * and the flag is raised when that was a change; it is never lowered.
   */
  function UpdateParam(v: int, current: Tracked): (r: Tracked)
    ensures r.value == v
    ensures r.flag == (current.flag || v != current.value)
  {
    if v != current.value then Tracked(v, true) else current
  }

  /** Setting the same value twice is setting it once. */
  lemma UpdateParamIdempotent(v: int, current: Tracked)
    ensures UpdateParam(v, UpdateParam(v, current)) == UpdateParam(v, current)
  {
  }

  /** Setting the value a parameter already holds changes nothing, flag included. */
  lemma UpdateParamUnchanged(current: Tracked)
    ensures UpdateParam(current.value, current) == current
  {
  }

  /** Two updates in a row: the last value wins, and the flag records any change along the way. */
  lemma UpdateParamTwice(v1: int, v2: int, current: Tracked)
    ensures var r := UpdateParam(v2, UpdateParam(v1, current));
            r.value == v2 && r.flag == (current.flag || v1 != current.value || v2 != v1)
  {
  }

  /** A sequence of updates: the last one wins; the flag is set unless every value equalled the start. */
  function UpdateAll(vs: seq<int>, current: Tracked): Tracked
  {
    if |vs| == 0 then current else UpdateAll(vs[1..], UpdateParam(vs[0], current))
  }

  lemma {:induction false} UpdateAllEffect(vs: seq<int>, current: Tracked)
    ensures |vs| > 0 ==> UpdateAll(vs, current).value == vs[|vs| - 1]
    ensures |vs| == 0 ==> UpdateAll(vs, current) == current
    ensures UpdateAll(vs, current).flag <==>
              current.flag || exists i :: 0 <= i < |vs| && vs[i] != current.value
  {
    if |vs| > 0 {
      var next := UpdateParam(vs[0], current);
      UpdateAllEffect(vs[1..], next);
      if vs[0] == current.value {
        assert next == current;
        if exists i :: 0 <= i < |vs| && vs[i] != current.value {
          var i :| 0 <= i < |vs| && vs[i] != current.value;
          assert vs[1..][i - 1] == vs[i];
        }
        if exists j :: 0 <= j < |vs[1..]| && vs[1..][j] != current.value {
          var j :| 0 <= j < |vs[1..]| && vs[1..][j] != current.value;
          assert vs[j + 1] == vs[1..][j];
        }
      }
    }
  }

  /** `copyFrameBuffer`'s region size: a negative size counts from the texture's size, so -1 is all of it. */
  function CopyExtent(w: int, size: nat): int
  {
    if w < 0 then w + 1 + size else w
  }

  /** The default -1 copies the full size; -1 - k copies k fewer. */
  lemma CopyExtentFromEnd(w: int, size: nat)
    requires -(size as int) - 1 <= w < 0
    ensures 0 <= CopyExtent(w, size) <= size
    ensures CopyExtent(w, size) == size - (-w - 1)
    ensures w == -1 ==> CopyExtent(w, size) == size
  {
  }

  /** The texture parameters a `Texture` keeps on the CPU side. */
  class Texture {
    var target: int
    var internalFormat: int
    var width: nat
    var height: nat
    var depth: nat
    var format: int
    var pixelType: int
    var wrapS: int
    var wrapT: int
    var wrapR: int
    var filterMin: int
    var filterMag: int
    var useMipmap: bool
    var filterUpdated: bool
    var wrapUpdated: bool
    var usingMipmapUpdated: bool

    /** The member initialisers: a 2D RGBA8 texture of size 0, clamped, nearest, no mipmap, every flag raised. */
    constructor()
      ensures target == GL_TEXTURE_2D && internalFormat == GL_RGBA8
      ensures width == 0 && height == 0 && depth == 0
      ensures format == GL_RGBA && pixelType == GL_UNSIGNED_BYTE
      ensures wrapS == GL_CLAMP_TO_EDGE && wrapT == GL_CLAMP_TO_EDGE && wrapR == GL_CLAMP_TO_EDGE
      ensures filterMin == GL_NEAREST && filterMag == GL_NEAREST && !useMipmap
      ensures filterUpdated && wrapUpdated && usingMipmapUpdated
    {
      target, internalFormat := GL_TEXTURE_2D, GL_RGBA8;
      width, height, depth := 0, 0, 0;
      format, pixelType := GL_RGBA, GL_UNSIGNED_BYTE;
      wrapS, wrapT, wrapR := GL_CLAMP_TO_EDGE, GL_CLAMP_TO_EDGE, GL_CLAMP_TO_EDGE;
      filterMin, filterMag, useMipmap := GL_NEAREST, GL_NEAREST, false;
      filterUpdated, wrapUpdated, usingMipmapUpdated := true, true, true;
    }

    /** Storage and format are as before: the filter and wrap setters never touch them. */
    twostate predicate SameStorage()
      reads this
    {
      && target == old(target) && internalFormat == old(internalFormat)
      && width == old(width) && height == old(height) && depth == old(depth)
      && format == old(format) && pixelType == old(pixelType) && useMipmap == old(useMipmap)
    }

    /** `filterMin(v)`, through `update_param` on the filter flag. */
    method SetFilterMin(v: int)
      modifies this
      ensures SameStorage()
      ensures Tracked(filterMin, filterUpdated) == UpdateParam(v, Tracked(old(filterMin), old(filterUpdated)))
      ensures filterMag == old(filterMag) && wrapS == old(wrapS) && wrapT == old(wrapT) && wrapR == old(wrapR)
      ensures wrapUpdated == old(wrapUpdated) && usingMipmapUpdated == old(usingMipmapUpdated)
    {
      var r := UpdateParam(v, Tracked(filterMin, filterUpdated));
      filterMin, filterUpdated := r.value, r.flag;
    }

    /** `filterMag(v)`, through `update_param` on the filter flag. */
    method SetFilterMag(v: int)
      modifies this
      ensures SameStorage()
      ensures Tracked(filterMag, filterUpdated) == UpdateParam(v, Tracked(old(filterMag), old(filterUpdated)))
      ensures filterMin == old(filterMin) && wrapS == old(wrapS) && wrapT == old(wrapT) && wrapR == old(wrapR)
      ensures wrapUpdated == old(wrapUpdated) && usingMipmapUpdated == old(usingMipmapUpdated)
    {
      var r := UpdateParam(v, Tracked(filterMag, filterUpdated));
      filterMag, filterUpdated := r.value, r.flag;
    }

    /** `filter(v)`: both filters take `v`; the flag goes up if either changed. */
    method SetFilter(v: int)
      modifies this
      ensures SameStorage()
      ensures filterMin == v && filterMag == v
      ensures filterUpdated == (old(filterUpdated) || old(filterMin) != v || old(filterMag) != v)
      ensures wrapS == old(wrapS) && wrapT == old(wrapT) && wrapR == old(wrapR)
      ensures wrapUpdated == old(wrapUpdated) && usingMipmapUpdated == old(usingMipmapUpdated)
    {
      SetFilterMin(v);
      SetFilterMag(v);
    }

    /** `wrap(S, T, R)`, through `update_param` on the wrap flag for each component. */
    method SetWrap3(s: int, t: int, r: int)
      modifies this
      ensures SameStorage()
      ensures wrapS == s && wrapT == t && wrapR == r
      ensures wrapUpdated == (old(wrapUpdated) || old(wrapS) != s || old(wrapT) != t || old(wrapR) != r)
      ensures filterMin == old(filterMin) && filterMag == old(filterMag)
      ensures filterUpdated == old(filterUpdated) && usingMipmapUpdated == old(usingMipmapUpdated)
    {
      var a := UpdateParam(s, Tracked(wrapS, wrapUpdated));
      wrapS, wrapUpdated := a.value, a.flag;
      var b := UpdateParam(t, Tracked(wrapT, wrapUpdated));
      wrapT, wrapUpdated := b.value, b.flag;
      var c := UpdateParam(r, Tracked(wrapR, wrapUpdated));
      wrapR, wrapUpdated := c.value, c.flag;
    }

    /** `wrap(S, T)`: R passes through unchanged. */
    method SetWrap2(s: int, t: int)
      modifies this
      ensures SameStorage()
      ensures wrapS == s && wrapT == t && wrapR == old(wrapR)
      ensures wrapUpdated == (old(wrapUpdated) || old(wrapS) != s || old(wrapT) != t)
      ensures filterMin == old(filterMin) && filterMag == old(filterMag)
      ensures filterUpdated == old(filterUpdated) && usingMipmapUpdated == old(usingMipmapUpdated)
    {
      SetWrap3(s, t, wrapR);
    }

    /** `wrap(v)`: all three components take `v`. */
    method SetWrapAll(v: int)
      modifies this
      ensures SameStorage()
      ensures wrapS == v && wrapT == v && wrapR == v
      ensures wrapUpdated == (old(wrapUpdated) || old(wrapS) != v || old(wrapT) != v || old(wrapR) != v)
      ensures filterMin == old(filterMin) && filterMag == old(filterMag)
      ensures filterUpdated == old(filterUpdated) && usingMipmapUpdated == old(usingMipmapUpdated)
    {
      SetWrap3(v, v, v);
    }

    /** `wrapS(v)`: T and R pass through. */
    method SetWrapS(v: int)
      modifies this
      ensures SameStorage()
      ensures wrapS == v && wrapT == old(wrapT) && wrapR == old(wrapR)
      ensures wrapUpdated == (old(wrapUpdated) || old(wrapS) != v)
      ensures filterMin == old(filterMin) && filterMag == old(filterMag)
      ensures filterUpdated == old(filterUpdated) && usingMipmapUpdated == old(usingMipmapUpdated)
    {
      SetWrap3(v, wrapT, wrapR);
    }

    /** `wrapT(v)`: S and R pass through. */
    method SetWrapT(v: int)
      modifies this
      ensures SameStorage()
      ensures wrapT == v && wrapS == old(wrapS) && wrapR == old(wrapR)
      ensures wrapUpdated == (old(wrapUpdated) || old(wrapT) != v)
      ensures filterMin == old(filterMin) && filterMag == old(filterMag)
      ensures filterUpdated == old(filterUpdated) && usingMipmapUpdated == old(usingMipmapUpdated)
    {
      SetWrap3(wrapS, v, wrapR);
    }

    /** `wrapR(v)`: S and T pass through. */
    method SetWrapR(v: int)
      modifies this
      ensures SameStorage()
      ensures wrapR == v && wrapS == old(wrapS) && wrapT == old(wrapT)
      ensures wrapUpdated == (old(wrapUpdated) || old(wrapR) != v)
      ensures filterMin == old(filterMin) && filterMag == old(filterMag)
      ensures filterUpdated == old(filterUpdated) && usingMipmapUpdated == old(usingMipmapUpdated)
    {
      SetWrap3(wrapS, wrapT, v);
    }
  }
}
