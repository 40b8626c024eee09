/**
 * The colours of the final app's `COLORS` table that the modelled behaviour
 * depends on, plus the dimmed nav-item text colour the sidebar uses inline.
 */
module Palette {
  const SidebarBg := "#1a2340"
  const SidebarHover := "#243054"
  const SidebarActive := "#2e3d6e"
  const Accent := "#4f7ef8"
  const TextColor := "#1e2d40"
  const Muted := "#8a99b0"
  const Border := "#dde3ef"
  const White := "#ffffff"
  /** The idle nav-item text colour, written inline in the sidebar code. */
  const Dim := "#a8b8d0"
}
