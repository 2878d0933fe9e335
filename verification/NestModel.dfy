/** The part of the Nest application model that the dependency-injection rules read. */
module NestModel {
  datatype InjectionRef = InjectionRef(name: string, forwardRef: bool, line: nat, column: nat)

  datatype Provider = Provider(className: string, filePath: string, injections: seq<InjectionRef>)

  datatype ModuleEntry = ModuleEntry(
    className: string,
    imports: seq<string>,
    providers: seq<string>,
    controllers: seq<string>,
    exports: seq<string>,
    hasUnresolved: bool,
    isGlobal: bool)

  datatype AppModel = AppModel(modules: seq<ModuleEntry>, providers: seq<Provider>)
}
