/** Keyboard input as the page's handlers see it. */
module KeyEvents {
  /** The `KeyboardEvent.key` values site.js tells apart; `Space` is the key
      reported as " ", and `Other` stands for every other key. */
  datatype Key = ArrowRight | ArrowLeft | Home | End | Enter | Space | Escape | Other
}
