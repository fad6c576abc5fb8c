/** PersonsListActionFilter: before the persons list action runs, a
    non-empty `searchBy` argument that names none of the searchable fields is
    replaced by "PersonName". */
module ActionFilters {
  import opened Common
  import Persons

  /** A value in the action-argument dictionary (`object?`): null, a string,
      or another boxed value, given by the text its ToString() returns. */
  datatype ArgValue = NullValue | StringValue(s: string) | BoxedValue(text: string)

  /** Convert.ToString(object?): the empty string for null. */
  function ConvertToString(v: ArgValue): string
  {
    match v
    case NullValue => ""
    case StringValue(s) => s
    case BoxedValue(t) => t
  }

  const SearchByKey: string := "searchBy"

  /** The searchable fields the filter accepts. */
  const SearchByOptions: seq<string> := ["PersonName", "Email", "DateOfBirth", "Gender", "CountryID", "Address"]

  /** The arguments after the filter has run. */
  function NormalizeSearchBy(args: map<string, ArgValue>): map<string, ArgValue>
  {
    if SearchByKey in args && ConvertToString(args[SearchByKey]) != ""
       && ConvertToString(args[SearchByKey]) !in SearchByOptions
    then args[SearchByKey := StringValue("PersonName")]
    else args
  }

  /** The part of ActionExecutingContext the filter uses. */
  class ActionExecutingContext {
    var ActionArguments: map<string, ArgValue>

    constructor (arguments: map<string, ArgValue>)
      ensures ActionArguments == arguments
    {
      ActionArguments := arguments;
    }
  }

  class PersonsListActionFilter {
    constructor ()
    {
    }

    /** OnActionExecuting: rewrites the `searchBy` entry in place. */
    method OnActionExecuting(context: ActionExecutingContext)
      modifies context
      ensures context.ActionArguments == NormalizeSearchBy(old(context.ActionArguments))
    {
      if SearchByKey in context.ActionArguments {
        var searchBy := ConvertToString(context.ActionArguments[SearchByKey]);
        if searchBy != "" {
          var searchByOptions := ["PersonName", "Email", "DateOfBirth", "Gender", "CountryID", "Address"];
          if searchBy !in searchByOptions {
            context.ActionArguments := context.ActionArguments[SearchByKey := StringValue("PersonName")];
          }
        }
      }
    }
  }

  /** A non-empty name outside the accepted set is replaced by "PersonName". */
  lemma UnknownSearchByReplaced(args: map<string, ArgValue>)
    requires SearchByKey in args
    requires ConvertToString(args[SearchByKey]) != "" && ConvertToString(args[SearchByKey]) !in SearchByOptions
    ensures NormalizeSearchBy(args) == args[SearchByKey := StringValue("PersonName")]
  {
  }

  /** An accepted name, a null or empty value, or a missing entry is left alone. */
  lemma AcceptedOrEmptySearchByKept(args: map<string, ArgValue>)
    requires SearchByKey !in args || ConvertToString(args[SearchByKey]) in SearchByOptions + [""]
    ensures NormalizeSearchBy(args) == args
  {
  }

  /** Only the `searchBy` entry can change; no entry is added or removed. */
  lemma OnlySearchByChanges(args: map<string, ArgValue>, key: string)
    ensures NormalizeSearchBy(args).Keys == args.Keys
    ensures key in args && key != SearchByKey ==> NormalizeSearchBy(args)[key] == args[key]
  {
  }

  /** Running the filter twice is the same as running it once. */
  lemma NormalizeIdempotent(args: map<string, ArgValue>)
    ensures NormalizeSearchBy(NormalizeSearchBy(args)) == NormalizeSearchBy(args)
  {
  }

  /** The filter accepts exactly the names the service's search dispatches on. */
  lemma OptionsAreServiceSearchFields(s: string)
    ensures s in SearchByOptions <==> Persons.SearchFieldOf(Some(s)).Some?
  {
  }

  /** After the filter, a non-empty `searchBy` always selects one of the
      service's six searches; only a null or empty one reaches its catch-all. */
  lemma NormalizedSearchByIsDispatched(args: map<string, ArgValue>)
    ensures var a := NormalizeSearchBy(args);
      SearchByKey in a && ConvertToString(a[SearchByKey]) != ""
      ==> Persons.SearchFieldOf(Some(ConvertToString(a[SearchByKey]))).Some?
  {
    var a := NormalizeSearchBy(args);
    if SearchByKey in a {
      OptionsAreServiceSearchFields(ConvertToString(a[SearchByKey]));
    }
  }
}
