/**
 * The provider registry of the latency-testing package (`ProviderFactory`): a table from
 * provider name to provider class, shared by every user of the factory, that `create`
 * reads and `register_provider` extends. A provider instance is the class it was built
 * from together with the options `initialize` received.
 */
module ProviderRegistry {
  import opened Wrappers
  import opened PyDict
  import opened Json

  /** The provider classes: the two built in, or one registered later under some name. */
  datatype ProviderClass =
    | AnthropicProvider
    | OpenAIProvider
    | Registered(className: string)

  /** A constructed provider and the keyword arguments of each `initialize` call it received. */
  datatype Provider = Provider(cls: ProviderClass, initializations: seq<Dict<Value>>)

  /** `ValueError(f"Provedor não suportado: {provider_name}")` */
  datatype FactoryError = Unsupported(message: string)

  /** The table the factory starts with. */
  function BuiltIn(): (table: map<string, ProviderClass>)
    ensures table.Keys == {"anthropic", "openai"}
  {
    map["anthropic" := AnthropicProvider, "openai" := OpenAIProvider]
  }

  /**
   * `create(provider_name, **kwargs)`: an unknown name raises before anything is built; a
   * known one builds its class and initializes it once with the given options.
   */
  function CreateFrom(table: map<string, ProviderClass>, name: string, options: Dict<Value>): (r: Result<Provider, FactoryError>)
    ensures r.Err? <==> name !in table
    ensures r.Err? ==> r.error == Unsupported("Provedor não suportado: " + name)
    ensures r.Ok? ==> r.value.cls == table[name] && r.value.initializations == [options]
  {
    if name !in table then Err(Unsupported("Provedor não suportado: " + name))
    else Ok(Provider(table[name], [options]))
  }

  class ProviderFactory {
    var providers: map<string, ProviderClass>

    /** The class attribute `_providers` as first defined. */
    constructor ()
      ensures providers == BuiltIn()
    {
      providers := BuiltIn();
    }

    method Create(name: string, options: Dict<Value>) returns (r: Result<Provider, FactoryError>)
      ensures r == CreateFrom(providers, name, options)
    {
      if name !in providers {
        return Err(Unsupported("Provedor não suportado: " + name));
      }
      var provider := Provider(providers[name], []);
      provider := provider.(initializations := provider.initializations + [options]);
      assert provider.initializations == [options];
      return Ok(provider);
    }

    /** `register_provider(name, provider_class)`: map `name` to the class, replacing any entry. */
    method RegisterProvider(name: string, providerClass: ProviderClass)
      modifies this
      ensures providers == old(providers)[name := providerClass]
    {
      providers := providers[name := providerClass];
    }
  }

  /**
   * After `register_provider(name, c)`, `create(name)` builds a `c`; every other name is
   * created exactly as before.
   */
  lemma RegisteredNameCreates(table: map<string, ProviderClass>, name: string, c: ProviderClass,
                              other: string, options: Dict<Value>)
    ensures CreateFrom(table[name := c], name, options) == Ok(Provider(c, [options]))
    ensures other != name ==> CreateFrom(table[name := c], other, options) == CreateFrom(table, other, options)
  {
  }

  /** A new factory builds exactly the two built-in providers and refuses every other name. */
  lemma BuiltInProviders(name: string, options: Dict<Value>)
    ensures CreateFrom(BuiltIn(), name, options).Ok? <==> name == "anthropic" || name == "openai"
    ensures CreateFrom(BuiltIn(), "anthropic", options) == Ok(Provider(AnthropicProvider, [options]))
    ensures CreateFrom(BuiltIn(), "openai", options) == Ok(Provider(OpenAIProvider, [options]))
  {
  }
}
