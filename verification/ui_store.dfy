/** The interface store: the chosen colour theme and whether the sidebar is
    open. */
module UiStore {
  import opened Types

  class Store {
    var theme: Theme
    var sidebarOpen: bool

    /** The initial state: follow the system theme, sidebar closed. */
    constructor()
      ensures theme == System && !sidebarOpen
    {
      theme := System;
      sidebarOpen := false;
    }

    /** `setTheme(theme)`. */
    method SetTheme(t: Theme)
      modifies this
      ensures theme == t && sidebarOpen == old(sidebarOpen)
    {
      theme := t;
    }

    /** `toggleSidebar()`: flips the sidebar. */
    method ToggleSidebar()
      modifies this
      ensures sidebarOpen == !old(sidebarOpen) && theme == old(theme)
    {
      sidebarOpen := !sidebarOpen;
    }

    /** `setSidebarOpen(open)`. */
    method SetSidebarOpen(open: bool)
      modifies this
      ensures sidebarOpen == open && theme == old(theme)
    {
      sidebarOpen := open;
    }
  }

  /** Toggling the sidebar twice leaves the store as it was. */
  method ToggleTwiceRestores(s: Store)
    modifies s
    ensures s.sidebarOpen == old(s.sidebarOpen) && s.theme == old(s.theme)
  {
    s.ToggleSidebar();
    s.ToggleSidebar();
  }
}
