/** A bar of the visualisation: its sort key and the colour it is painted with. */
module BarPlugin {

  /** The colour `hsl_to_rgb(hue, 1.0, 0.5)`. The conversion to RGB is a float library
      call that is not modelled, so a colour is identified by the hue it was made from. */
  datatype Color = Hsl(hue: real)

  /** `position` is the sort key (and the bar's height); `color` never changes after
      the bar is built. */
  datatype Bar = Bar(position: nat, color: Color)

  /** `Bar::new`: stores the position unchanged and derives the colour from the hue. */
  function NewBar(position: nat, hue: real): (b: Bar)
    ensures b.position == position && b.color == Hsl(hue)
  {
    Bar(position, Hsl(hue))
  }
}
