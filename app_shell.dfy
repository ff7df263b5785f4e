/** The application shell of the main process (electron/main.js): picking the
    content source and the preload script in `createWindow`, and the
    bookkeeping of the single `mainWindow` reference across `closed` and
    `activate`. The file system is the set of paths that exist at the moment
    of the call; paths are opaque strings built by the caller. */
module AppShell {
  import opened Js

  /** The dev server the window loads when the app is not packaged. */
  const DevServerUrl := "http://localhost:5173"

  /** What the window is asked to load. */
  datatype LoadTarget =
    | Url(url: string)          // the URL itself, in development
    | FileUrlOf(path: string)   // the file: URL of a bundle path, in production

  /** The window as configured by `createWindow`. */
  datatype Window = Window(target: LoadTarget, preload: Option<string>, devTools: bool)

  /** The module-level `let mainWindow`: undefined until the first window is
      created, null once a window has been closed. */
  datatype WindowRef = Unset | Null | Open(window: Window)

  /** The preload guard: the preload path is used only when the file exists. */
  function PreloadFor(preloadPath: string, existing: set<string>): (r: Option<string>)
    ensures r.Some? <==> preloadPath in existing
    ensures r.Some? ==> r.value == preloadPath
  {
    if preloadPath in existing then Some(preloadPath) else None
  }

  /** The `indexPath` selection: the dev URL in development; in production the
      primary bundle, replaced by the fallback only when the primary is missing
      and the fallback exists. */
  function IndexPath(isDev: bool, primary: string, fallback: string, existing: set<string>): (p: string)
    ensures isDev ==> p == DevServerUrl
    ensures !isDev && primary in existing ==> p == primary
    ensures !isDev && primary !in existing && fallback in existing ==> p == fallback
    ensures !isDev && primary !in existing && fallback !in existing ==> p == primary
    ensures !isDev && (primary in existing || fallback in existing) ==> p in existing
  {
    if isDev then DevServerUrl
    else if primary !in existing && fallback in existing then fallback
    else primary
  }

  /** The window `createWindow` builds for a given environment. */
  function WindowFor(isDev: bool, indexPath: string, preload: Option<string>): Window {
    if isDev then Window(Url(indexPath), preload, true) else Window(FileUrlOf(indexPath), preload, false)
  }

  /** The main process's window bookkeeping. */
  class Shell {
    const isPackaged: bool
    const preloadPath: string
    const primaryIndex: string
    const fallbackIndex: string
    var mainWindow: WindowRef

    constructor (isPackaged: bool, preloadPath: string, primaryIndex: string, fallbackIndex: string)
      ensures this.isPackaged == isPackaged && this.preloadPath == preloadPath
      ensures this.primaryIndex == primaryIndex && this.fallbackIndex == fallbackIndex
      ensures mainWindow == Unset
    {
      this.isPackaged := isPackaged;
      this.preloadPath := preloadPath;
      this.primaryIndex := primaryIndex;
      this.fallbackIndex := fallbackIndex;
      mainWindow := Unset;
    }

    /** The window `createWindow` opens when `existing` are the files present. */
    function NewWindow(existing: set<string>): Window {
      WindowFor(!isPackaged, IndexPath(!isPackaged, primaryIndex, fallbackIndex, existing), PreloadFor(preloadPath, existing))
    }

    /** `createWindow`: picks the content source and the preload, opens the
        window (dev tools only in development) and stores it in `mainWindow`. */
    method CreateWindow(existing: set<string>)
      modifies this
      ensures mainWindow == Open(NewWindow(existing))
    {
      var usePreload := PreloadFor(preloadPath, existing);
      var isDev := !isPackaged;
      var indexPath;
      if isDev {
        indexPath := DevServerUrl;
      } else {
        indexPath := primaryIndex;
        if indexPath !in existing {
          var alt := fallbackIndex;
          if alt in existing {
            indexPath := alt;
          }
        }
      }
      mainWindow := Open(WindowFor(isDev, indexPath, usePreload));
    }

    /** The app becoming ready: the window is created, and only a packaged app
        starts an automatic update check. */
    method OnReady(existing: set<string>) returns (autoCheck: bool)
      modifies this
      ensures mainWindow == Open(NewWindow(existing))
      ensures autoCheck == isPackaged
    {
      CreateWindow(existing);
      autoCheck := isPackaged;
    }

    /** The window's `closed` event. */
    method OnClosed()
      modifies this
      ensures mainWindow == Null
    {
      mainWindow := Null;
    }

    /** The app's `activate` event: a window is created only when `mainWindow`
        is null, that is after a window was closed; an open window and a
        reference that was never set are left alone. */
    method OnActivate(existing: set<string>)
      modifies this
      ensures old(mainWindow) == Null ==> mainWindow == Open(NewWindow(existing))
      ensures old(mainWindow) != Null ==> mainWindow == old(mainWindow)
    {
      if mainWindow == Null {
        CreateWindow(existing);
      }
    }
  }

  /** Activate before the app is ready, launch, close the window, activate
      again: the early activation creates nothing (the reference is still
      unset, not null), and the last one opens a window built for the files
      that exist at that moment. */
  method CloseThenActivate(isPackaged: bool, preloadPath: string, primary: string, fallback: string,
                           atLaunch: set<string>, atActivate: set<string>)
    returns (beforeReady: WindowRef, window: Window)
    ensures beforeReady == Unset
    ensures window == WindowFor(!isPackaged, IndexPath(!isPackaged, primary, fallback, atActivate), PreloadFor(preloadPath, atActivate))
    ensures window.preload == PreloadFor(preloadPath, atActivate)
    ensures window.devTools == !isPackaged
    ensures isPackaged && primary !in atActivate && fallback in atActivate ==> window.target == FileUrlOf(fallback)
  {
    var shell := new Shell(isPackaged, preloadPath, primary, fallback);
    shell.OnActivate(atLaunch);
    beforeReady := shell.mainWindow;
    var _ := shell.OnReady(atLaunch);
    shell.OnClosed();
    shell.OnActivate(atActivate);
    window := shell.mainWindow.window;
  }
}
