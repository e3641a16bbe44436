/** The favourite mark: stored as the integer 1 or 0, shown in the forms as
    `'Si'` or `'No'`. */
module Favorite {
  const Yes: string := "Si"
  const No: string := "No"

  /** `'Si' if favorito == 1 else 'No'`: the text the edit form shows. */
  function Display(favorito: int): (shown: string)
    ensures shown == Yes <==> favorito == 1
    ensures shown == Yes || shown == No
  {
    if favorito == 1 then Yes else No
  }

  /** `1 if favorite == 'Si' else 0`: the value written back. */
  function Flag(shown: string): (favorito: int)
    ensures favorito == 1 <==> shown == Yes
    ensures favorito == 0 || favorito == 1
  {
    if shown == Yes then 1 else 0
  }

  /** Showing a stored value and saving it again keeps 1 and turns every
      other value into 0; saving a text and showing it again keeps `'Si'` and
      turns every other text into `'No'`. */
  lemma RoundTrip(favorito: int, shown: string)
    ensures Flag(Display(favorito)) == (if favorito == 1 then 1 else 0)
    ensures Display(Flag(shown)) == (if shown == Yes then Yes else No)
    ensures favorito == 0 || favorito == 1 ==> Flag(Display(favorito)) == favorito
  {
  }
}
