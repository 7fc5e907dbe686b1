/** `resolveTheme`: the theme a mode shows, following Telegram's colour scheme in system mode. */
module AppSettings {
  import opened Common

  /** `THEME`; `Auto` is the system mode, whose value is "auto". */
  datatype Theme = Light | Dark | Auto

  /** Light and dark are shown as chosen; system mode shows light only when Telegram reports light. */
  function ResolveTheme(mode: Theme, telegramColorScheme: Option<Theme>): (r: Theme)
    ensures r != Auto
    ensures mode != Auto ==> r == mode
    ensures mode == Auto ==> (r == Light <==> telegramColorScheme == Some(Light))
  {
    if mode.Light? || mode.Dark? then mode
    else if telegramColorScheme == Some(Light) then Light
    else Dark
  }

  /** A resolved theme resolves to itself, whatever the scheme. */
  lemma ResolveIsIdempotent(mode: Theme, scheme: Option<Theme>, scheme': Option<Theme>)
    ensures ResolveTheme(ResolveTheme(mode, scheme), scheme') == ResolveTheme(mode, scheme)
  {
  }
}
