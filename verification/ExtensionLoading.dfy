/** Loading, calling and unloading language modules and plugins; what the callbacks answer is arbitrary. */
module ExtensionLoading {
  import opened Extensions

  datatype Callback =
    | OnInitialize | OnPluginLoad | OnMethodExport | OnPluginStart | OnUpdate | OnPluginUpdate | OnPluginEnd

  /** An answer that something depends on; Invalid is one to loading a plugin that does not fit its manifest. */
  datatype Answer = Accepted | LoadedWith(table: MethodTable) | Refused | Invalid

  /**
   * A call into a language module on behalf of an extension. The answer is recorded where something depends
   * on it. A shutdown is recorded together with whether some plugin still held the address of the language
   * module at that moment.
   */
  datatype Event =
    | Event(callback: Callback, languageModule: Address, extension: int)
    | AnsweredEvent(callback: Callback, languageModule: Address, extension: int, answer: Answer)
    | ShutdownEvent(languageModule: Address, extension: int, held: bool)

  ghost predicate IsHeld(all: seq<Extension>, address: Address)
    reads all`languageModule
  {
    exists k :: 0 <= k < |all| && all[k].kind == Plugin && all[k].languageModule == address
  }

  class LanguageModules {
    ghost var log: seq<Event>

    constructor ()
      ensures log == []
    {
      log := [];
    }

    /** There must be a language module to call. */
    method Call(callback: Callback, languageModule: Address, extension: int) returns (ok: bool)
      requires languageModule != 0
      modifies this
      ensures log == old(log) + [Event(callback, languageModule, extension)]
    {
      ok := *;
      log := log + [Event(callback, languageModule, extension)];
    }

    /** A call to load something, which gives the methods it has. */
    method Load(callback: Callback, languageModule: Address, extension: int) returns (answer: Answer)
      requires languageModule != 0
      modifies this
      ensures !answer.Accepted? && log == old(log) + [AnsweredEvent(callback, languageModule, extension, answer)]
    {
      answer := *;
      if answer.Accepted? {
        answer := Refused;
      }
      log := log + [AnsweredEvent(callback, languageModule, extension, answer)];
    }

    /** A call that is either accepted or refused. */
    method Ask(callback: Callback, languageModule: Address, extension: int) returns (ok: bool)
      requires languageModule != 0
      modifies this
      ensures log == old(log)
              + [AnsweredEvent(callback, languageModule, extension, if ok then Accepted else Refused)]
    {
      ok := *;
      log := log + [AnsweredEvent(callback, languageModule, extension, if ok then Accepted else Refused)];
    }

    method Shutdown(languageModule: Address, extension: int, ghost all: seq<Extension>) returns (ok: bool)
      requires languageModule != 0
      modifies this
      ensures log == old(log) + [ShutdownEvent(languageModule, extension, IsHeld(all, languageModule))]
    {
      ok := *;
      log := log + [ShutdownEvent(languageModule, extension, IsHeld(all, languageModule))];
    }
  }

  class ExtensionLoader {
    const modules: LanguageModules

    constructor (modules: LanguageModules)
      ensures this.modules == modules
    {
      this.modules := modules;
    }

    /** Gets the language module from the assembly, if there is one, and initializes it. */
    method LoadModule(m: Extension) returns (ok: bool, ghost answer: Answer)
      modifies m`languageModule, m`table, m`provider, modules
      ensures ok <==> m.file.languageModule != 0 && answer.LoadedWith?
      ensures m.Now() == if ok then old(m.Now()).(languageModule := m.file.languageModule, table := answer.table)
                         else old(m.Now())
      ensures m.provider == if ok then null else old(m.provider)
      ensures modules.log == old(modules.log)
              + if m.file.languageModule == 0 then []
                else [AnsweredEvent(OnInitialize, m.file.languageModule, m.id, answer)]
    {
      var languageModule := m.file.languageModule;
      if languageModule == 0 {
        return false, Refused;
      }
      var initialized := modules.Load(OnInitialize, languageModule, m.id);
      answer := initialized;
      if !initialized.LoadedWith? {
        return false, answer;
      }
      m.SetLanguageModule(languageModule, null);
      m.SetMethodTable(initialized.table);
      ok := true;
    }

    method LoadPlugin(m: Extension, plugin: Extension) returns (ok: bool, ghost answer: Answer)
      requires m != plugin
      modifies plugin`languageModule, plugin`table, plugin`provider, modules
      ensures ok <==> m.languageModule != 0 && answer.LoadedWith?
      ensures m.languageModule == 0 ==>
                plugin.Now() == old(plugin.Now()) && plugin.provider == old(plugin.provider)
                && modules.log == old(modules.log)
      ensures m.languageModule != 0 ==>
                && plugin.Now() == old(plugin.Now()).(languageModule := m.languageModule,
                                                      table := if ok then answer.table else old(plugin.table))
                && plugin.provider == m
                && modules.log == old(modules.log) + [AnsweredEvent(OnPluginLoad, m.languageModule, plugin.id, answer)]
    {
      var languageModule := m.languageModule;
      if languageModule == 0 {
        return false, Refused;
      }
      plugin.SetLanguageModule(languageModule, m);
      var loaded := modules.Load(OnPluginLoad, plugin.languageModule, plugin.id);
      answer := loaded;
      if !loaded.LoadedWith? {
        return false, answer;
      }
      plugin.SetMethodTable(loaded.table);
      ok := true;
    }

    /** A callback that is made only if the extension has it. */
    method Notify(callback: Callback, wanted: bool, languageModule: Address, extension: int) returns (ok: bool)
      requires wanted ==> languageModule != 0
      modifies modules
      ensures modules.log == old(modules.log) + (if wanted then [Event(callback, languageModule, extension)] else [])
      ensures !wanted ==> ok
    {
      if !wanted {
        return true;
      }
      ok := modules.Call(callback, languageModule, extension);
    }

    /** A callback of that kind that the extension waits for. */
    method Request(callback: Callback, wanted: bool, languageModule: Address, extension: int) returns (ok: bool)
      requires wanted ==> languageModule != 0
      modifies modules
      ensures modules.log == old(modules.log)
              + if !wanted then []
                else [AnsweredEvent(callback, languageModule, extension, if ok then Accepted else Refused)]
      ensures !wanted ==> ok
    {
      if !wanted {
        return true;
      }
      ok := modules.Ask(callback, languageModule, extension);
    }

    method MethodExport(m: Extension, plugin: Extension) returns (ok: bool)
      requires m.languageModule != 0
      modifies modules
      ensures modules.log == old(modules.log)
              + if !plugin.table.hasExport then []
                else [AnsweredEvent(OnMethodExport, m.languageModule, plugin.id, if ok then Accepted else Refused)]
      ensures !plugin.table.hasExport ==> ok
    {
      ok := Request(OnMethodExport, plugin.table.hasExport, m.languageModule, plugin.id);
    }

    method StartPlugin(plugin: Extension) returns (ok: bool)
      requires plugin.languageModule != 0
      modifies modules
      ensures modules.log == old(modules.log)
              + if !plugin.table.hasStart then []
                else [AnsweredEvent(OnPluginStart, plugin.languageModule, plugin.id, if ok then Accepted else Refused)]
      ensures !plugin.table.hasStart ==> ok
    {
      ok := Request(OnPluginStart, plugin.table.hasStart, plugin.languageModule, plugin.id);
    }

    method UpdateModule(m: Extension) returns (ok: bool)
      requires m.languageModule != 0
      modifies modules
      ensures modules.log == old(modules.log)
              + (if m.table.hasUpdate then [Event(OnUpdate, m.languageModule, m.id)] else [])
    {
      ok := Notify(OnUpdate, m.table.hasUpdate, m.languageModule, m.id);
    }

    method UpdatePlugin(plugin: Extension) returns (ok: bool)
      requires plugin.languageModule != 0
      modifies modules
      ensures modules.log == old(modules.log)
              + (if plugin.table.hasUpdate then [Event(OnPluginUpdate, plugin.languageModule, plugin.id)] else [])
    {
      ok := Notify(OnPluginUpdate, plugin.table.hasUpdate, plugin.languageModule, plugin.id);
    }

    method EndPlugin(plugin: Extension) returns (ok: bool)
      requires plugin.languageModule != 0
      modifies modules
      ensures modules.log == old(modules.log)
              + (if plugin.table.hasEnd then [Event(OnPluginEnd, plugin.languageModule, plugin.id)] else [])
    {
      ok := Notify(OnPluginEnd, plugin.table.hasEnd, plugin.languageModule, plugin.id);
    }

    /** No extension may still refer to a module that is shut down. */
    method UnloadModule(m: Extension, ghost all: seq<Extension>) returns (ok: bool)
      requires forall e :: e in all ==> e.provider != m
      modifies m`languageModule, m`provider, modules
      ensures m.Now() == old(m.Now()).(languageModule := 0)
      ensures m.provider == null || m.provider == old(m.provider)
      ensures modules.log == old(modules.log) + (if old(m.languageModule) != 0
                then [ShutdownEvent(old(m.languageModule), m.id, old(IsHeld(all, m.languageModule)))] else [])
    {
      ok := true;
      var languageModule := m.languageModule;
      if languageModule != 0 {
        ok := modules.Shutdown(languageModule, m.id, all);
        m.SetLanguageModule(0, null);
      }
    }

    method UnloadPlugin(plugin: Extension)
      modifies plugin`languageModule, plugin`table, plugin`provider
      ensures plugin.Now() == old(plugin.Now()).(languageModule := 0, table := NO_METHODS)
      ensures plugin.provider == null
    {
      plugin.SetLanguageModule(0, null);
      plugin.SetMethodTable(NO_METHODS);
    }
  }
}
