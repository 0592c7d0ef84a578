/** The two ratio-to-class mappings of components/VideoPlayer.tsx. */
module VideoPlayer {

  /** `getAspectRatioClass`: the CSS class that gives the player its shape. */
  function AspectRatioClass(ratio: string): (c: string)
    ensures c in {"aspect-[9/16]", "aspect-square", "aspect-video"}
    ensures c == "aspect-[9/16]" <==> ratio == "9:16"
    ensures c == "aspect-square" <==> ratio == "1:1"
  {
    match ratio
    case "9:16" => "aspect-[9/16]"
    case "1:1" => "aspect-square"
    case _ => "aspect-video"
  }

  /** `getContainerWidthClass`: the CSS class that bounds the player's width. */
  function ContainerWidthClass(ratio: string): (c: string)
    ensures c in {"max-w-sm", "max-w-lg", "max-w-2xl"}
    ensures c == "max-w-sm" <==> ratio == "9:16"
    ensures c == "max-w-lg" <==> ratio == "1:1"
  {
    match ratio
    case "9:16" => "max-w-sm"
    case "1:1" => "max-w-lg"
    case _ => "max-w-2xl"
  }

  /** The default branches: landscape, and every ratio outside the three, get the
      landscape classes. */
  lemma UnknownRatioIsLandscape(ratio: string)
    requires ratio != "9:16" && ratio != "1:1"
    ensures AspectRatioClass(ratio) == AspectRatioClass("16:9") == "aspect-video"
    ensures ContainerWidthClass(ratio) == ContainerWidthClass("16:9") == "max-w-2xl"
  {
  }
}
