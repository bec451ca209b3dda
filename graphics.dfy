/**
 * The light sources shared by the rasterizer and the ray tracer
 * (src/components/graphics.rs), and the f32 RGB colour both renderers
 * scale and blend.
 */
module Graphics {
  import opened Vectors

  /** An `Rgb<f32>` colour, channels nominally in 0..255. */
  datatype Rgb = Rgb(r: real, g: real, b: real)

  const Black: Rgb := Rgb(0.0, 0.0, 0.0)
  const White: Rgb := Rgb(255.0, 255.0, 255.0)

  /** `color * k`: every channel scaled by k. */
  function Scale(c: Rgb, k: real): Rgb
  {
    Rgb(c.r * k, c.g * k, c.b * k)
  }

  /** `a + b`: channel-wise sum. */
  function Blend(a: Rgb, b: Rgb): Rgb
  {
    Rgb(a.r + b.r, a.g + b.g, a.b + b.b)
  }

  /** A light: ambient everywhere, a point at a position, or a direction. */
  datatype Light =
    | Ambient(intensity: real)
    | Point(intensity: real, position: Vector3)
    | Directional(intensity: real, direction: Vector3)

  /** `Light::intensity`: the intensity carried by any kind of light. */
  function Intensity(l: Light): real
  {
    match l
    case Ambient(i) => i
    case Point(i, _) => i
    case Directional(i, _) => i
  }

  /** Every variant answers its own intensity, whatever its position or
      direction. */
  lemma IntensityOfEachVariant(i: real, p: Vector3, q: Vector3)
    ensures Intensity(Ambient(i)) == i
    ensures Intensity(Point(i, p)) == i && Intensity(Point(i, p)) == Intensity(Point(i, q))
    ensures Intensity(Directional(i, p)) == i && Intensity(Directional(i, p)) == Intensity(Directional(i, q))
  {
  }

  /** The accessor is total and agrees with the field shared by all three
      variants. */
  lemma IntensityIsTheField(l: Light)
    ensures Intensity(l) == l.intensity
  {
  }
}
